/** The appointment service's time normaliser (normalizeTimeFormat): it turns
    a user-supplied time into the canonical zero-padded "HH:MM" form or fails
    with one `invalid_format` error record. */
module TimeFormat {
  import opened Base

  /** Hours and minutes a parsed datetime string yields in local time. */
  datatype WallClock = WallClock(hours: nat, minutes: nat)

  /** Either the canonical time, or the errors the thrown Error carries. */
  datatype TimeResult = Canonical(time: string) | Invalid(errors: seq<ValidationError>)

  /** The single record every normalisation failure is reported with. */
  const FormatErrors: seq<ValidationError> :=
    [ValidationError("Formato de horário inválido. Use HH:MM (ex: 14:30)", Some("time"), "invalid_format")]

  function TrimStart(s: string): (r: string)
    ensures |r| <= |s| && r == s[|s| - |r|..]
    ensures r != [] ==> !IsJsWhitespace(r[0])
    ensures forall i :: 0 <= i < |s| - |r| ==> IsJsWhitespace(s[i])
  {
    if s != [] && IsJsWhitespace(s[0]) then TrimStart(s[1..]) else s
  }

  function TrimEnd(s: string): (r: string)
    ensures |r| <= |s| && r == s[..|r|]
    ensures r != [] ==> !IsJsWhitespace(r[|r| - 1])
    ensures forall i :: |r| <= i < |s| ==> IsJsWhitespace(s[i])
  {
    if s != [] && IsJsWhitespace(s[|s| - 1]) then TrimEnd(s[..|s| - 1]) else s
  }

  /** How many leading characters trim removes. */
  function TrimOffset(s: string): nat {
    |s| - |TrimStart(s)|
  }

  /** String.prototype.trim: the input without leading and trailing whitespace. */
  function Trim(s: string): (r: string)
    ensures r != [] ==> !IsJsWhitespace(r[0]) && !IsJsWhitespace(r[|r| - 1])
  {
    TrimEnd(TrimStart(s))
  }

  /** Trim removes whitespace only, from both ends, and keeps the rest as it is. */
  lemma TrimSlice(s: string)
    ensures TrimOffset(s) + |Trim(s)| <= |s|
    ensures Trim(s) == s[TrimOffset(s)..TrimOffset(s) + |Trim(s)|]
    ensures forall i :: 0 <= i < TrimOffset(s) ==> IsJsWhitespace(s[i])
    ensures forall i :: TrimOffset(s) + |Trim(s)| <= i < |s| ==> IsJsWhitespace(s[i])
  {
    var t := TrimStart(s);
    assert forall i :: |Trim(s)| <= i < |t| ==> IsJsWhitespace(t[i]);
    assert forall i :: TrimOffset(s) <= i < |s| ==> s[i] == t[i - TrimOffset(s)];
  }

  /** `s.split(':').slice(0, 2).join(':')`: drops a seconds field and
      everything after it. */
  function KeepTwoFields(s: string): string {
    var parts := Split(s, ':');
    Join(if |parts| <= 2 then parts else parts[..2], ':')
  }

  /** `/^([0-1]?[0-9]|2[0-3]):([0-5][0-9])$/.test(t)`: one or two hour
      digits (00-19, 0-9 or 20-23), a colon, two minute digits 00-59. */
  predicate MatchesTimePattern(t: string) {
    (|t| == 4 || |t| == 5) && t[|t| - 3] == ':'
    && '0' <= t[|t| - 2] <= '5' && IsDigit(t[|t| - 1])
    && (if |t| == 4 then IsDigit(t[0])
        else ('0' <= t[0] <= '1' && IsDigit(t[1])) || (t[0] == '2' && '0' <= t[1] <= '3'))
  }

  /** parseInt of the text before the colon of a matching string. */
  function HourField(t: string): nat
    requires MatchesTimePattern(t)
  {
    DigitsValue(t[..|t| - 3])
  }

  /** parseInt of the text after the colon of a matching string. */
  function MinuteField(t: string): nat
    requires MatchesTimePattern(t)
  {
    DigitsValue(t[|t| - 2..])
  }

  /** The time a datetime string (one holding a hyphen) stands for, rendered
      "HH:MM", or None when the Date parsed from it is invalid. */
  function DateTimeClock(t: string, parseDateTime: string -> Option<WallClock>): Option<string> {
    match parseDateTime(t)
    case None => None
    case Some(c) => Some(PadStart2(c.hours) + ":" + PadStart2(c.minutes))
  }

  /** The string the pattern is tested against, when there is one. */
  function Candidate(raw: string, parseDateTime: string -> Option<WallClock>): Option<string> {
    var t := Trim(raw);
    if '-' in t then DateTimeClock(t, parseDateTime) else Some(KeepTwoFields(t))
  }

  /** Everything normalizeTimeFormat does once the tested string is known:
      the pattern test, the range test and the zero-padded rendering. */
  function Validate(candidate: Option<string>): (r: TimeResult)
    ensures r.Invalid? ==> r.errors == FormatErrors
  {
    if candidate.None? || !MatchesTimePattern(candidate.value) then Invalid(FormatErrors)
    else
      var hours := HourField(candidate.value);
      var minutes := MinuteField(candidate.value);
      if hours > 23 || minutes > 59 then Invalid(FormatErrors)
      else Canonical(PadStart2(hours) + ":" + PadStart2(minutes))
  }

  /** normalizeTimeFormat; the Date parser used for datetime strings is a parameter. */
  function Normalize(raw: string, parseDateTime: string -> Option<WallClock>): (r: TimeResult)
    ensures r.Invalid? ==> r.errors == FormatErrors
  {
    if raw == [] then Invalid(FormatErrors) else Validate(Candidate(raw, parseDateTime))
  }

  /** A canonical time: two hour digits 00-23, a colon, two minute digits 00-59. */
  predicate IsCanonical(s: string) {
    |s| == 5 && s[2] == ':' && AllDigits(s[..2]) && AllDigits(s[3..])
    && DigitsValue(s[..2]) < 24 && DigitsValue(s[3..]) < 60
  }

  /** The regular expression admits only hours 0-23 and minutes 0-59, so the
      range check after it never fails. */
  lemma PatternBounds(t: string)
    requires MatchesTimePattern(t)
    ensures HourField(t) <= 23 && MinuteField(t) <= 59
  {
    DigitsValueShort(t[..|t| - 3]);
    DigitsValueShort(t[|t| - 2..]);
  }

  /** A string that matches the pattern is rendered as a canonical time of
      the same value. */
  lemma ValidateMatching(t: string)
    requires MatchesTimePattern(t)
    ensures var r := Validate(Some(t));
      r.Canonical? && IsCanonical(r.time)
      && DigitsValue(r.time[..2]) == HourField(t) && DigitsValue(r.time[3..]) == MinuteField(t)
  {
    PatternBounds(t);
    var a := PadStart2(HourField(t));
    var b := PadStart2(MinuteField(t));
    var s := a + ":" + b;
    assert s[..2] == a && s[3..] == b;
    PadStart2Value(HourField(t));
    PadStart2Value(MinuteField(t));
  }

  /** On a hyphen-free input, normalisation succeeds exactly when the trimmed
      input, cut after its minutes field, matches the time pattern. */
  lemma NormalizeAcceptsExactly(raw: string, parseDateTime: string -> Option<WallClock>)
    requires '-' !in Trim(raw)
    ensures Normalize(raw, parseDateTime).Canonical? <==> MatchesTimePattern(KeepTwoFields(Trim(raw)))
  {
    var t := KeepTwoFields(Trim(raw));
    if raw == [] {
      assert Split([], ':') == [[]];
      assert t == [];
    } else {
      assert Normalize(raw, parseDateTime) == Validate(Some(t));
      if MatchesTimePattern(t) {
        ValidateMatching(t);
      }
    }
  }

  /** A successful normalisation is canonical and denotes the hours and
      minutes written in the tested string. */
  lemma NormalizeResultCanonical(raw: string, parseDateTime: string -> Option<WallClock>)
    ensures var r := Normalize(raw, parseDateTime);
      r.Canonical? ==>
        var c := Candidate(raw, parseDateTime);
        c.Some? && MatchesTimePattern(c.value) && IsCanonical(r.time)
        && DigitsValue(r.time[..2]) == HourField(c.value) && DigitsValue(r.time[3..]) == MinuteField(c.value)
  {
    if raw != [] {
      var c := Candidate(raw, parseDateTime);
      if c.Some? && MatchesTimePattern(c.value) {
        ValidateMatching(c.value);
      }
    }
  }

  /** A string with one colon, at index i, is split in two around it. */
  lemma SplitOneColon(s: string, i: nat)
    requires i < |s| && s[i] == ':' && ':' !in s[..i] && ':' !in s[i + 1..]
    ensures Split(s, ':') == [s[..i], s[i + 1..]]
  {
    IndexOfFirst(s, ':', i);
    var rest := s[i + 1..];
    assert Split(rest, ':') == [rest];
    assert Split(s, ':') == [s[..i]] + Split(rest, ':');
  }

  /** A canonical time passes the pattern and renders as itself. */
  lemma ValidateCanonical(s: string)
    requires IsCanonical(s)
    ensures Validate(Some(s)) == Canonical(s)
  {
    var h := s[..2];
    var m := s[3..];
    DigitsValueShort(h);
    DigitsValueShort(m);
    assert h[0] == s[0] && h[1] == s[1] && m[0] == s[3] && m[1] == s[4];
    assert MatchesTimePattern(s);
    assert s[..|s| - 3] == h && s[|s| - 2..] == m;
    PadDigitsTwo(h);
    PadDigitsTwo(m);
    assert h + ":" + m == s;
  }

  /** The characters of a canonical time, one by one. */
  lemma CanonicalChars(s: string)
    requires IsCanonical(s)
    ensures IsDigit(s[0]) && IsDigit(s[1]) && IsDigit(s[3]) && IsDigit(s[4])
    ensures '-' !in s && ':' !in s[..2] && ':' !in s[3..]
  {
    var h := s[..2];
    var m := s[3..];
    assert IsDigit(h[0]) && IsDigit(h[1]) && IsDigit(m[0]) && IsDigit(m[1]);
    assert s == [h[0], h[1], ':', m[0], m[1]];
  }

  /** Trim leaves a string alone whose ends are not whitespace. */
  lemma TrimUnchanged(s: string)
    requires s != [] && !IsJsWhitespace(s[0]) && !IsJsWhitespace(s[|s| - 1])
    ensures Trim(s) == s
  {
    assert TrimStart(s) == s;
  }

  /** Cutting after the minutes leaves a string with one colon alone. */
  lemma KeepTwoFieldsOneColon(s: string, i: nat)
    requires i < |s| && s[i] == ':' && ':' !in s[..i] && ':' !in s[i + 1..]
    ensures KeepTwoFields(s) == s
  {
    SplitOneColon(s, i);
    assert KeepTwoFields(s) == Join([s[..i], s[i + 1..]], ':') == s[..i] + ":" + s[i + 1..];
  }

  /** Trimming and cutting after the minutes leave a canonical time alone. */
  lemma CanonicalCandidate(s: string, parseDateTime: string -> Option<WallClock>)
    requires IsCanonical(s)
    ensures Candidate(s, parseDateTime) == Some(s)
  {
    CanonicalChars(s);
    TrimUnchanged(s);
    KeepTwoFieldsOneColon(s, 2);
  }

  /** A canonical time is its own normal form. */
  lemma CanonicalIsFixedPoint(s: string, parseDateTime: string -> Option<WallClock>)
    requires IsCanonical(s)
    ensures Normalize(s, parseDateTime) == Canonical(s)
  {
    CanonicalCandidate(s, parseDateTime);
    ValidateCanonical(s);
  }

  /** Normalisation is idempotent: a normalised time normalises to itself. */
  lemma NormalizeIdempotent(raw: string, parseDateTime: string -> Option<WallClock>)
    ensures var r := Normalize(raw, parseDateTime);
      r.Canonical? ==> Normalize(r.time, parseDateTime) == r
  {
    NormalizeResultCanonical(raw, parseDateTime);
    var r := Normalize(raw, parseDateTime);
    if r.Canonical? {
      CanonicalIsFixedPoint(r.time, parseDateTime);
    }
  }

  /** The form's start time, "HH:MM" with ":00" appended, normalises back
      to the form's "HH:MM". */
  lemma NormalizeDropsSeconds(hhmm: string, parseDateTime: string -> Option<WallClock>)
    requires IsCanonical(hhmm)
    ensures Normalize(hhmm + ":00", parseDateTime) == Canonical(hhmm)
  {
    var s := hhmm + ":00";
    CanonicalChars(hhmm);
    assert s[0] == hhmm[0] && s[|s| - 1] == '0';
    TrimUnchanged(s);
    SecondsCut(hhmm);
    ValidateCanonical(hhmm);
  }

  /** A seconds field after a canonical time is cut off. */
  lemma SecondsCut(hhmm: string)
    requires IsCanonical(hhmm)
    ensures '-' !in hhmm + ":00" && KeepTwoFields(hhmm + ":00") == hhmm
  {
    CanonicalChars(hhmm);
    var s := hhmm + ":00";
    var rest := s[3..];
    assert rest == hhmm[3..] + ":00";
    assert ':' !in s[..2] && s[2] == ':';
    assert IndexOf(s, ':') == 2;
    assert ':' !in rest[..2] && rest[2] == ':' && ':' !in rest[3..];
    SplitOneColon(rest, 2);
    assert Split(s, ':') == [s[..2]] + Split(rest, ':');
    assert s[..2] == hhmm[..2] && rest[..2] == hhmm[3..];
    assert Split(s, ':')[..2] == [hhmm[..2], hhmm[3..]];
    assert KeepTwoFields(s) == Join([hhmm[..2], hhmm[3..]], ':') == hhmm[..2] + ":" + hhmm[3..];
    assert hhmm[..2] + ":" + hhmm[3..] == hhmm;
  }

  /** A wall-clock time rendered "HH:MM" passes exactly when it is in range,
      and then renders as itself. */
  lemma ValidateClock(hours: nat, minutes: nat)
    ensures var t := PadStart2(hours) + ":" + PadStart2(minutes);
      Validate(Some(t)).Canonical? <==> hours < 24 && minutes < 60
  {
    var h := PadStart2(hours);
    var m := PadStart2(minutes);
    var t := h + ":" + m;
    if hours < 100 && minutes < 100 {
      assert t[..2] == h && t[3..] == m;
      PadStart2Value(hours);
      PadStart2Value(minutes);
      if hours < 24 && minutes < 60 {
        assert IsCanonical(t);
        ValidateCanonical(t);
      } else if MatchesTimePattern(t) {
        assert t[..|t| - 3] == h && t[|t| - 2..] == m;
        PatternBounds(t);
      }
    } else {
      assert |t| > 5;
    }
  }

  /** On a datetime string the call fails exactly when the parsed Date is
      invalid or its clock is out of range. */
  lemma DateTimeBranch(raw: string, parseDateTime: string -> Option<WallClock>)
    requires '-' in Trim(raw)
    ensures var c := parseDateTime(Trim(raw));
      Normalize(raw, parseDateTime).Canonical? <==> (c.Some? && c.value.hours < 24 && c.value.minutes < 60)
  {
    var t := Trim(raw);
    var c := parseDateTime(t);
    assert raw != [];
    assert Normalize(raw, parseDateTime) == Validate(DateTimeClock(t, parseDateTime));
    if c.Some? {
      ValidateClock(c.value.hours, c.value.minutes);
      assert DateTimeClock(t, parseDateTime) == Some(PadStart2(c.value.hours) + ":" + PadStart2(c.value.minutes));
    }
    hide Normalize, Validate, Trim, Candidate, MatchesTimePattern, PadStart2;
  }

  /** A hyphen-free string with no whitespace at its ends is tested after
      cutting it after its minutes field. */
  lemma PlainCandidate(s: string, parseDateTime: string -> Option<WallClock>)
    requires s != [] && !IsJsWhitespace(s[0]) && !IsJsWhitespace(s[|s| - 1]) && '-' !in s
    ensures Candidate(s, parseDateTime) == Some(KeepTwoFields(s))
  {
    TrimUnchanged(s);
  }

  /** Worked case: a seconds field is dropped. */
  lemma ExampleSecondsDropped(parseDateTime: string -> Option<WallClock>)
    ensures Normalize("13:40:00", parseDateTime) == Canonical("13:40")
  {
    hide Normalize, IsCanonical;
    Canonical1340();
    NormalizeDropsSeconds("13:40", parseDateTime);
    assert "13:40" + ":00" == "13:40:00";
  }

  /** "13:40" is a canonical time. */
  lemma Canonical1340()
    ensures IsCanonical("13:40")
  {
    var t := "13:40";
    DigitsValueShort(t[..2]);
    DigitsValueShort(t[3..]);
  }

  /** Worked case: a single hour digit is padded. */
  lemma ExampleHourPadded(parseDateTime: string -> Option<WallClock>)
    ensures Normalize("9:05", parseDateTime) == Canonical("09:05")
  {
    var s := "9:05";
    PlainCandidate(s, parseDateTime);
    KeepTwoFieldsOneColon(s, 1);
    ValidateHourPadded();
  }

  /** The validation step of the padded-hour case: "9:05" passes the
      pattern and its fields render as "09" and "05". */
  lemma ValidateHourPadded()
    ensures Validate(Some("9:05")) == Canonical("09:05")
  {
    var s := "9:05";
    assert MatchesTimePattern(s);
    DigitsValueShort(s[..1]);
    DigitsValueShort(s[2..]);
    assert PadStart2(9) == "09";
    assert PadStart2(5) == "05";
  }

  /** Worked case: a single minute digit fails. */
  lemma ExampleOneMinuteDigitRejected(parseDateTime: string -> Option<WallClock>)
    ensures Normalize("9:5", parseDateTime).Invalid?
  {
    PlainCandidate("9:5", parseDateTime);
    KeepTwoFieldsOneColon("9:5", 1);
  }

  /** Worked case: hour 24 fails. */
  lemma ExampleHour24Rejected(parseDateTime: string -> Option<WallClock>)
    ensures Normalize("24:00", parseDateTime).Invalid?
  {
    Hour24Candidate(parseDateTime);
    hide Candidate;
    var t := "24:00";
    assert !MatchesTimePattern(t) by { assert t[0] == '2' && t[1] == '4'; }
  }

  /** "24:00" reaches the pattern test unchanged. */
  lemma Hour24Candidate(parseDateTime: string -> Option<WallClock>)
    ensures Candidate("24:00", parseDateTime) == Some("24:00")
  {
    var t := "24:00";
    assert !IsJsWhitespace(t[0]) && !IsJsWhitespace(t[4]) && '-' !in t;
    assert t[2] == ':' && ':' !in t[..2] && ':' !in t[3..];
    PlainCandidate(t, parseDateTime);
    KeepTwoFieldsOneColon(t, 2);
  }
}
