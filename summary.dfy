/** The appointments summary card: per-status counts and the number of
    appointments that fall on today's date, gathered in one pass. */
module Summary {
  import opened Base

  /** The two fields of an appointment the summary reads. */
  datatype Listed = Listed(status: string, startTime: string)

  /** `(m[s] || 0)`: a missing key reads as zero. */
  function CountOr0(m: map<string, nat>, s: string): nat {
    if s in m then m[s] else 0
  }

  /** The number of appointments with the status. */
  function CountStatus(apts: seq<Listed>, s: string): nat {
    if apts == [] then 0
    else CountStatus(apts[..|apts| - 1], s) + (if apts[|apts| - 1].status == s then 1 else 0)
  }

  /** The `byStatus` dictionary after the appointments, one increment each. */
  function StatusCounts(apts: seq<Listed>): map<string, nat> {
    if apts == [] then map[]
    else
      var m := StatusCounts(apts[..|apts| - 1]);
      var s := apts[|apts| - 1].status;
      m[s := CountOr0(m, s) + 1]
  }

  /** The number of appointments whose start falls on `today`; `dayOf` is
      the local calendar day of `new Date(start_time)` at midnight, None
      for an invalid date (whose time is NaN and equals nothing). */
  function TodayCount(apts: seq<Listed>, today: int, dayOf: string -> Option<int>): nat {
    if apts == [] then 0
    else TodayCount(apts[..|apts| - 1], today, dayOf) + (if dayOf(apts[|apts| - 1].startTime) == Some(today) then 1 else 0)
  }

  /** The statuses in order of first appearance: the key order of `byStatus`. */
  function Statuses(apts: seq<Listed>): seq<string> {
    if apts == [] then []
    else
      var prev := Statuses(apts[..|apts| - 1]);
      var s := apts[|apts| - 1].status;
      if s in prev then prev else prev + [s]
  }

  /** The sum of the dictionary's values over the keys. */
  function SumOver(m: map<string, nat>, keys: seq<string>): nat {
    if keys == [] then 0 else SumOver(m, keys[..|keys| - 1]) + CountOr0(m, keys[|keys| - 1])
  }

  /** The reduce, as the loop it runs: one pass that increments the
      appointment's status count and, when its day is today, the today count. */
  method Summarize(apts: seq<Listed>, today: int, dayOf: string -> Option<int>)
    returns (byStatus: map<string, nat>, todayCount: nat)
    ensures byStatus == StatusCounts(apts)
    ensures todayCount == TodayCount(apts, today, dayOf)
  {
    byStatus := map[];
    todayCount := 0;
    var i := 0;
    while i < |apts|
      invariant 0 <= i <= |apts|
      invariant byStatus == StatusCounts(apts[..i])
      invariant todayCount == TodayCount(apts[..i], today, dayOf)
    {
      var a := apts[i];
      assert apts[..i + 1][..i] == apts[..i] && apts[..i + 1][i] == a;
      byStatus := byStatus[a.status := CountOr0(byStatus, a.status) + 1];
      if dayOf(a.startTime) == Some(today) {
        todayCount := todayCount + 1;
      }
      i := i + 1;
    }
    assert apts[..i] == apts;
  }

  /** A status is a key exactly when some appointment has it, and its value
      is the number of appointments with it. */
  lemma {:induction false} StatusCountsExactly(apts: seq<Listed>)
    ensures forall s :: s in StatusCounts(apts) <==> exists i :: 0 <= i < |apts| && apts[i].status == s
    ensures forall s :: CountOr0(StatusCounts(apts), s) == CountStatus(apts, s)
  {
    if apts != [] {
      var init := apts[..|apts| - 1];
      StatusCountsExactly(init);
      forall s | exists i :: 0 <= i < |apts| && apts[i].status == s
        ensures s in StatusCounts(apts)
      {
        var i :| 0 <= i < |apts| && apts[i].status == s;
        if i < |init| {
          assert init[i].status == s;
        }
      }
      forall s | s in StatusCounts(apts)
        ensures exists i :: 0 <= i < |apts| && apts[i].status == s
      {
        if s != apts[|apts| - 1].status {
          assert s in StatusCounts(init);
          var i :| 0 <= i < |init| && init[i].status == s;
          assert apts[i].status == s;
        }
      }
    }
  }

  /** Statuses lists every status once, and exactly the dictionary's keys. */
  lemma {:induction false} StatusesAreKeys(apts: seq<Listed>)
    ensures forall s :: s in Statuses(apts) <==> s in StatusCounts(apts)
    ensures forall i, j :: 0 <= i < j < |Statuses(apts)| ==> Statuses(apts)[i] != Statuses(apts)[j]
  {
    if apts != [] {
      StatusesAreKeys(apts[..|apts| - 1]);
    }
  }

  /** Raising one key that occurs exactly once raises the sum by as much. */
  lemma {:induction false} SumOverUpdate(m: map<string, nat>, keys: seq<string>, s: string, v: nat)
    requires forall i, j :: 0 <= i < j < |keys| ==> keys[i] != keys[j]
    ensures s in keys ==> SumOver(m[s := v], keys) + CountOr0(m, s) == SumOver(m, keys) + v
    ensures s !in keys ==> SumOver(m[s := v], keys) == SumOver(m, keys)
  {
    if keys != [] {
      var init := keys[..|keys| - 1];
      var last := keys[|keys| - 1];
      SumOverUpdate(m, init, s, v);
      assert keys == init + [last];
      if s == last {
        assert s !in init by {
          forall i | 0 <= i < |init| ensures init[i] != s {
            assert keys[i] != keys[|keys| - 1];
          }
        }
      }
    }
  }

  /** The dictionary's values add up to the number of appointments. */
  lemma {:induction false} CountsSumToTotal(apts: seq<Listed>)
    ensures SumOver(StatusCounts(apts), Statuses(apts)) == |apts|
  {
    if apts != [] {
      var init := apts[..|apts| - 1];
      var s := apts[|apts| - 1].status;
      var m := StatusCounts(init);
      var m' := m[s := CountOr0(m, s) + 1];
      var keys := Statuses(init);
      assert StatusCounts(apts) == m';
      CountsSumToTotal(init);
      StatusesAreKeys(init);
      SumOverUpdate(m, keys, s, CountOr0(m, s) + 1);
      if s in keys {
        assert Statuses(apts) == keys;
      } else {
        assert s !in m && CountOr0(m', s) == 1;
        assert Statuses(apts) == keys + [s];
        assert (keys + [s])[..|keys|] == keys;
      }
    }
  }

  /** At most every appointment is today's. */
  lemma {:induction false} TodayAtMostAll(apts: seq<Listed>, today: int, dayOf: string -> Option<int>)
    ensures TodayCount(apts, today, dayOf) <= |apts|
  {
    if apts != [] {
      TodayAtMostAll(apts[..|apts| - 1], today, dayOf);
    }
  }

  /** An appointment whose start is no valid date is never counted as today's. */
  lemma {:induction false} InvalidDatesNotToday(apts: seq<Listed>, today: int, dayOf: string -> Option<int>)
    requires forall i :: 0 <= i < |apts| ==> dayOf(apts[i].startTime).None?
    ensures TodayCount(apts, today, dayOf) == 0
  {
    if apts != [] {
      var init := apts[..|apts| - 1];
      assert forall i :: 0 <= i < |init| ==> init[i] == apts[i];
      InvalidDatesNotToday(init, today, dayOf);
    }
  }
}
