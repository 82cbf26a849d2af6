/**
 The table of the libraw1394 tracing patch that gives handles small numbers. A handle pointer can
 be freed and come back for a new handle, so a number is bound to a stretch of the pointer's life.
 */
module HandleTable {
  const MAX_NUMBER_OF_HANDLES := 256

  datatype Slot = Slot(handle: nat, active: bool)

  type Table = seq<Slot>

  predicate Holds(t: Table, handle: nat, i: int) {
    0 <= i < |t| && t[i].handle == handle && t[i].active
  }

  /** No handle is active in two slots. */
  predicate TableOk(t: Table) {
    && |t| <= MAX_NUMBER_OF_HANDLES
    && forall i, j :: 0 <= i < j < |t| && t[i].active && t[j].active ==> t[i].handle != t[j].handle
  }

  ghost predicate IsActive(t: Table, handle: nat) {
    exists i :: Holds(t, handle, i)
  }

  /** get_handle_number as a relation: the table afterwards and the number. */
  ghost predicate Looked(t: Table, handle: nat, t': Table, number: int) {
    if IsActive(t, handle) then t' == t && Holds(t, handle, number)
    else if |t| == MAX_NUMBER_OF_HANDLES then t' == t && number == -1
    else t' == t + [Slot(handle, true)] && number == |t|
  }

  /**
   remove_handle_number as a relation. For an unknown handle the trace message looks the handle
   up, and that registers it.
   */
  ghost predicate Removed(t: Table, handle: nat, t': Table) {
    if IsActive(t, handle) then exists i :: Holds(t, handle, i) && t' == t[i := t[i].(active := false)]
    else exists number :: Looked(t, handle, t', number)
  }

  class Tracer {
    const handles: array<Slot>
    var next: nat

    ghost predicate Valid()
      reads this, handles
    {
      handles.Length == MAX_NUMBER_OF_HANDLES && next <= MAX_NUMBER_OF_HANDLES && TableOk(handles[..next])
    }

    ghost function View(): Table
      requires next <= handles.Length
      reads this, handles
    {
      handles[..next]
    }

    constructor ()
      ensures Valid() && View() == [] && fresh(handles)
    {
      handles := new Slot[MAX_NUMBER_OF_HANDLES](_ => Slot(0, false));
      next := 0;
    }

    /** get_handle_number */
    method GetHandleNumber(handle: nat) returns (number: int)
      requires Valid()
      modifies this, handles
      ensures Valid() && Looked(old(View()), handle, View(), number)
      ensures number == -1 <==> |old(View())| == 256 && !IsActive(old(View()), handle)
      ensures number != -1 ==>
                && 0 <= number < |View()| <= 256
                && View()[number].handle == handle && View()[number].active
                && old(View()) <= View() && |View()| <= |old(View())| + 1
      ensures |View()| > |old(View())| <==> !IsActive(old(View()), handle) && |old(View())| < 256
    {
      ghost var t := View();
      for i := 0 to next
        invariant next == old(next) && View() == t
        invariant forall k :: 0 <= k < i ==> !Holds(t, handle, k)
      {
        if handles[i].handle == handle && handles[i].active {
          assert Holds(t, handle, i);
          return i;
        }
      }
      assert !IsActive(t, handle);
      if next == MAX_NUMBER_OF_HANDLES {
        return -1;
      }
      handles[next] := Slot(handle, true);
      next := next + 1;
      AddKeepsOk(t, handle);
      assert View() == t + [Slot(handle, true)];
      return next - 1;
    }

    /** remove_handle_number */
    method RemoveHandleNumber(handle: nat)
      requires Valid()
      modifies this, handles
      ensures Valid() && Removed(old(View()), handle, View())
    {
      ghost var t := View();
      for i := 0 to next
        invariant next == old(next) && View() == t
        invariant forall k :: 0 <= k < i ==> !Holds(t, handle, k)
      {
        if handles[i].handle == handle && handles[i].active {
          assert Holds(t, handle, i);
          handles[i] := handles[i].(active := false);
          assert View() == t[i := t[i].(active := false)];
          return;
        }
      }
      assert !IsActive(t, handle);
      var number := GetHandleNumber(handle);
    }
  }

  lemma AddKeepsOk(t: Table, handle: nat)
    requires TableOk(t) && |t| < MAX_NUMBER_OF_HANDLES && !IsActive(t, handle)
    ensures TableOk(t + [Slot(handle, true)])
  {
    forall i | 0 <= i < |t| && t[i].active
      ensures t[i].handle != handle
    {
      assert !Holds(t, handle, i);
    }
  }

  // ----- runs

  datatype Call = Get(handle: nat, number: int) | Remove(handle: nat)

  ghost predicate Step(t: Table, call: Call, t': Table) {
    match call
    case Get(h, n) => Looked(t, h, t', n)
    case Remove(h) => Removed(t, h, t')
  }

  /** tables[i] is the table before calls[i]; the run starts with any consistent table. */
  ghost predicate IsRun(tables: seq<Table>, calls: seq<Call>) {
    && |tables| == |calls| + 1 && TableOk(tables[0])
    && forall i :: 0 <= i < |calls| ==> Step(tables[i], calls[i], tables[i + 1])
  }

  /** What one call can do to a slot: nothing, or make it inactive. */
  lemma StepKeeps(t: Table, call: Call, t': Table)
    requires TableOk(t) && Step(t, call, t')
    ensures TableOk(t') && |t| <= |t'|
    ensures forall i :: 0 <= i < |t| ==> t'[i].handle == t[i].handle && (t'[i].active ==> t[i].active)
    ensures forall i :: 0 <= i < |t| && t[i].active && !(call.Remove? && call.handle == t[i].handle) ==> t'[i].active
  {
    var h := call.handle;
    if IsActive(t, h) {
      if call.Remove? {
        var i :| Holds(t, h, i) && t' == t[i := t[i].(active := false)];
      }
    } else if |t| < MAX_NUMBER_OF_HANDLES {
      AddKeepsOk(t, h);
      assert t' == t + [Slot(h, true)];
    }
  }

  lemma {:induction false} RunKeeps(tables: seq<Table>, calls: seq<Call>, i: nat, j: nat)
    requires IsRun(tables, calls) && i <= j < |tables|
    ensures TableOk(tables[i]) && TableOk(tables[j]) && |tables[i]| <= |tables[j]|
    ensures forall k :: 0 <= k < |tables[i]| ==>
              tables[j][k].handle == tables[i][k].handle && (tables[j][k].active ==> tables[i][k].active)
    decreases j
  {
    if i < j {
      RunKeeps(tables, calls, i, j - 1);
      StepKeeps(tables[j - 1], calls[j - 1], tables[j]);
    } else if 0 < i {
      RunKeeps(tables, calls, i - 1, i - 1);
      StepKeeps(tables[i - 1], calls[i - 1], tables[i]);
    }
  }

  lemma {:induction false} StaysActive(tables: seq<Table>, calls: seq<Call>, i: nat, j: nat, k: nat)
    requires IsRun(tables, calls) && i <= j < |tables|
    requires k < |tables[i]| && tables[i][k].active
    requires forall m :: i <= m < j ==> calls[m] != Remove(tables[i][k].handle)
    ensures k < |tables[j]| && tables[j][k] == tables[i][k]
    decreases j
  {
    if i < j {
      StaysActive(tables, calls, i, j - 1, k);
      RunKeeps(tables, calls, i, j - 1);
      StepKeeps(tables[j - 1], calls[j - 1], tables[j]);
    }
  }

  /** The slot that a lookup with a number has found or made. */
  lemma NumberIsSlot(tables: seq<Table>, calls: seq<Call>, i: nat)
    requires IsRun(tables, calls) && i < |calls| && calls[i].Get? && calls[i].number != -1
    ensures calls[i].number >= 0 && Holds(tables[i + 1], calls[i].handle, calls[i].number)
  {
    RunKeeps(tables, calls, i, i);
    assert Step(tables[i], calls[i], tables[i + 1]);
  }

  /** Between two lookups without a removal of the handle the number does not change. */
  lemma NumberIsStable(tables: seq<Table>, calls: seq<Call>, i: nat, j: nat)
    requires IsRun(tables, calls) && i < j < |calls|
    requires calls[i].Get? && calls[j].Get? && calls[i].handle == calls[j].handle && calls[i].number != -1
    requires forall m :: i < m < j ==> calls[m] != Remove(calls[i].handle)
    ensures calls[j].number == calls[i].number
  {
    NumberIsSlot(tables, calls, i);
    StaysActive(tables, calls, i + 1, j, calls[i].number);
    RunKeeps(tables, calls, i, j);
    assert Holds(tables[j], calls[j].handle, calls[i].number);
    FindsTheOne(tables[j], calls[j].handle, tables[j + 1], calls[j].number, calls[i].number);
  }

  /** The lookup of an active handle gives the one slot that holds it. */
  lemma FindsTheOne(t: Table, handle: nat, t': Table, number: int, k: nat)
    requires TableOk(t) && Looked(t, handle, t', number) && Holds(t, handle, k)
    ensures number == k
  {
  }

  /** After a handle was removed, a lookup of the same pointer gives a number never given before. */
  lemma RemovedPointerGetsFreshNumber(tables: seq<Table>, calls: seq<Call>, m: nat, j: nat)
    requires IsRun(tables, calls) && m < j < |calls|
    requires calls[m].Remove? && IsActive(tables[m], calls[m].handle)
    requires calls[j].Get? && calls[j].handle == calls[m].handle && calls[j].number != -1
    ensures calls[j].number >= |tables[m]|
  {
    RunKeeps(tables, calls, m, m);
    NumberIsSlot(tables, calls, j);
    var h, n := calls[m].handle, calls[j].number;
    if n < |tables[m]| {
      RunKeeps(tables, calls, m, m + 1);
      RunKeeps(tables, calls, m + 1, j + 1);
    }
  }

  /**
   A number is never given to another handle, and never again once its handle has been removed:
   two lookups with the same number name the same pointer, not removed in between.
   */
  lemma NumberIsNeverReused(tables: seq<Table>, calls: seq<Call>, i: nat, j: nat)
    requires IsRun(tables, calls) && i < j < |calls|
    requires calls[i].Get? && calls[j].Get? && calls[i].number != -1 && calls[i].number == calls[j].number
    ensures calls[i].handle == calls[j].handle
    ensures forall m :: i < m < j && calls[m] == Remove(calls[i].handle) ==> !IsActive(tables[m], calls[i].handle)
  {
    NumberIsSlot(tables, calls, i);
    NumberIsSlot(tables, calls, j);
    RunKeeps(tables, calls, i + 1, j + 1);
    forall m | i < m < j && calls[m] == Remove(calls[i].handle)
      ensures !IsActive(tables[m], calls[i].handle)
    {
      RunKeeps(tables, calls, i + 1, m);
      if IsActive(tables[m], calls[i].handle) {
        RemovedPointerGetsFreshNumber(tables, calls, m, j);
      }
    }
  }

  /** Removing a handle leaves it inactive exactly if it was known, or unknown with the table full. */
  lemma RemoveExact(t: Table, handle: nat, t': Table)
    requires TableOk(t) && Removed(t, handle, t')
    ensures !IsActive(t', handle) <==> IsActive(t, handle) || |t| == MAX_NUMBER_OF_HANDLES
  {
    if !IsActive(t, handle) {
      if |t| < MAX_NUMBER_OF_HANDLES {
        assert Holds(t', handle, |t|);
      }
    } else {
      var i :| Holds(t, handle, i) && t' == t[i := t[i].(active := false)];
      forall k
        ensures !Holds(t', handle, k)
      {
        assert 0 <= k < |t| && k != i ==> t'[k] == t[k];
      }
    }
  }
}
