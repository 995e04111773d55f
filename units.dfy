/** The clinic-units settings tab ("unidades"): an in-memory list of units
    with an add-or-edit form and a confirmed delete. */
module Units {
  import opened Base

  datatype UnitStatus = Active | Inactive

  /** A unit: id, name, address, phone, person in charge and status. */
  datatype Unit = Unit(id: int, name: string, address: string, phone: string, manager: string, status: UnitStatus)

  /** The four text inputs of the unit form. */
  datatype UnitFields = UnitFields(name: string, address: string, phone: string, manager: string)

  /** The unit the form submits: the edited unit's id when it is truthy
      (non-zero), else the list length plus one; always active. */
  function SubmittedUnit(units: seq<Unit>, editing: Option<Unit>, fields: UnitFields): Unit {
    var id := if editing.Some? && editing.value.id != 0 then editing.value.id else |units| + 1;
    Unit(id, fields.name, fields.address, fields.phone, fields.manager, Active)
  }

  /** `units.map(u => u.id === id ? unit : u)`. */
  function ReplaceById(units: seq<Unit>, id: int, unit: Unit): (r: seq<Unit>) {
    seq(|units|, i requires 0 <= i < |units| => if units[i].id == id then unit else units[i])
  }

  /** The list after a submit: the edited unit's id replaced, or the new unit appended. */
  function AfterSubmit(units: seq<Unit>, editing: Option<Unit>, fields: UnitFields): seq<Unit> {
    var unit := SubmittedUnit(units, editing, fields);
    if editing.Some? then ReplaceById(units, editing.value.id, unit) else units + [unit]
  }

  /** `units.filter(u => u.id !== id)`. */
  function RemoveById(units: seq<Unit>, id: int): seq<Unit> {
    if units == [] then []
    else (if units[0].id == id then [] else [units[0]]) + RemoveById(units[1..], id)
  }

  /** The list after a delete, which happens only when the user confirms. */
  function AfterDelete(units: seq<Unit>, id: int, confirmed: bool): seq<Unit> {
    if confirmed then RemoveById(units, id) else units
  }

  /** A submit without a unit being edited appends exactly one active unit,
      numbered one past the old length, holding the form's fields. */
  lemma SubmitNewAppends(units: seq<Unit>, fields: UnitFields)
    ensures var r := AfterSubmit(units, None, fields);
      |r| == |units| + 1 && r[..|units|] == units
      && r[|units|] == Unit(|units| + 1, fields.name, fields.address, fields.phone, fields.manager, Active)
  {
    assert (units + [SubmittedUnit(units, None, fields)])[..|units|] == units;
  }

  /** A submit while editing replaces every unit with the edited id by the
      submitted (active) unit and keeps the length and all other units. */
  lemma SubmitEditReplaces(units: seq<Unit>, e: Unit, fields: UnitFields)
    ensures var r := AfterSubmit(units, Some(e), fields);
      var unit := SubmittedUnit(units, Some(e), fields);
      |r| == |units|
      && unit.status == Active
      && unit.id == (if e.id != 0 then e.id else |units| + 1)
      && forall i :: 0 <= i < |units| ==> r[i] == (if units[i].id == e.id then unit else units[i])
  {
  }

  /** The filter keeps exactly the units with another id. */
  lemma {:induction false} RemoveByIdMembers(units: seq<Unit>, id: int)
    ensures |RemoveById(units, id)| <= |units|
    ensures forall u :: u in RemoveById(units, id) <==> u in units && u.id != id
  {
    if units != [] {
      RemoveByIdMembers(units[1..], id);
      assert forall u :: u in units <==> u == units[0] || u in units[1..] by {
        assert units == [units[0]] + units[1..];
      }
    }
  }

  /** Every kept unit keeps its number of copies, and the removed id has none. */
  lemma {:induction false} RemoveByIdCounts(units: seq<Unit>, id: int)
    ensures forall u: Unit :: u.id != id ==> multiset(RemoveById(units, id))[u] == multiset(units)[u]
    ensures forall u: Unit :: u.id == id ==> multiset(RemoveById(units, id))[u] == 0
  {
    if units != [] {
      RemoveByIdCounts(units[1..], id);
      assert units == [units[0]] + units[1..];
      assert multiset(units) == multiset([units[0]]) + multiset(units[1..]);
    }
  }

  /** With no unit carrying the id, the filter changes nothing. */
  lemma {:induction false} RemoveByIdAbsent(units: seq<Unit>, id: int)
    requires forall i :: 0 <= i < |units| ==> units[i].id != id
    ensures RemoveById(units, id) == units
  {
    if units != [] {
      RemoveByIdAbsent(units[1..], id);
      assert units == [units[0]] + units[1..];
    }
  }

  /** The filter keeps the order of the list: filtering a concatenation
      filters each part in turn, and a single unit is kept or dropped by its
      id alone. Together these fix the result as the kept units in their
      original order. */
  lemma {:induction false} RemoveByIdOrder(a: seq<Unit>, b: seq<Unit>, id: int)
    ensures RemoveById(a + b, id) == RemoveById(a, id) + RemoveById(b, id)
    ensures forall u :: RemoveById([u], id) == if u.id == id then [] else [u]
  {
    forall u ensures RemoveById([u], id) == if u.id == id then [] else [u] {
      assert [u][1..] == [];
    }
    if a == [] {
      assert a + b == b;
    } else {
      assert (a + b)[0] == a[0] && (a + b)[1..] == a[1..] + b;
      RemoveByIdOrder(a[1..], b, id);
    }
  }

  /** A confirmed delete removes exactly the units with that id; an
      unconfirmed one changes nothing. Which order the kept units come in is
      RemoveByIdOrder. */
  lemma DeleteEffect(units: seq<Unit>, id: int, confirmed: bool)
    ensures !confirmed ==> AfterDelete(units, id, confirmed) == units
    ensures confirmed ==>
      var r := AfterDelete(units, id, confirmed);
      (forall u :: u in r <==> u in units && u.id != id)
  {
    RemoveByIdMembers(units, id);
  }

  /** Numbering new units by the list length can reuse a live id: after
      deleting unit 1 of units 1 and 2, the next new unit is numbered 2
      again, and one delete then removes both. */
  lemma NewIdCanRepeatAfterDelete(u1: Unit, u2: Unit, fields: UnitFields)
    requires u1.id == 1 && u2.id == 2
    ensures var afterDelete := AfterDelete([u1, u2], 1, true);
      var afterAdd := AfterSubmit(afterDelete, None, fields);
      afterDelete == [u2] && |afterAdd| == 2 && afterAdd[0].id == afterAdd[1].id == 2
      && AfterDelete(afterAdd, 2, true) == []
  {
    assert [u1, u2][1..] == [u2];
    assert [u2][1..] == [];
    assert RemoveById([u2], 1) == [u2] + RemoveById([], 1) == [u2];
    assert RemoveById([u1, u2], 1) == [] + RemoveById([u2], 1);
    var added := SubmittedUnit([u2], None, fields);
    assert added.id == 2;
    var afterAdd := [u2, added];
    assert AfterSubmit([u2], None, fields) == afterAdd;
    assert afterAdd[1..] == [added] && afterAdd[1..][1..] == [];
    assert RemoveById(afterAdd[1..], 2) == [];
  }

  /** The tab's state: the unit list, whether the form is shown, and the
      unit being edited. */
  class UnitsTab {
    var units: seq<Unit>
    var showForm: bool
    var editing: Option<Unit>

    constructor (initial: seq<Unit>)
      ensures units == initial && !showForm && editing.None?
    {
      units := initial;
      showForm := false;
      editing := None;
    }

    /** handleEdit: open the form on a unit. */
    method HandleEdit(unit: Unit)
      modifies this
      ensures editing == Some(unit) && showForm && units == old(units)
    {
      editing := Some(unit);
      showForm := true;
    }

    /** handleSubmit: store the submitted unit, close the form, stop editing. */
    method HandleSubmit(fields: UnitFields)
      modifies this
      ensures units == AfterSubmit(old(units), old(editing), fields)
      ensures !showForm && editing.None?
    {
      var unit := SubmittedUnit(units, editing, fields);
      if editing.Some? {
        units := ReplaceById(units, editing.value.id, unit);
      } else {
        units := units + [unit];
      }
      showForm := false;
      editing := None;
    }

    /** handleDelete: remove the units with the id if the user confirms. */
    method HandleDelete(id: int, confirmed: bool)
      modifies this
      ensures units == AfterDelete(old(units), id, confirmed)
      ensures showForm == old(showForm) && editing == old(editing)
    {
      if confirmed {
        units := RemoveById(units, id);
      }
    }
  }
}
