/** The list transforms behind the to-do handlers: the record type and the
    filter and the two maps the handlers apply to the whole task list. None of
    them assumes that ids are unique; each acts on every record with the id. */
module TaskList {

  /** One to-do item: its creation id, its description and its completion flag. */
  datatype Task = Task(id: int, text: string, done: bool)

  /** Some record of `ts` carries `id`. */
  predicate HasId(ts: seq<Task>, id: int) {
    exists i :: 0 <= i < |ts| && ts[i].id == id
  }

  /** How many records of `ts` carry `id`. */
  function CountId(ts: seq<Task>, id: int): (n: nat)
    ensures n <= |ts|
    ensures n == 0 <==> !HasId(ts, id)
  {
    if ts == [] then 0
    else
      assert forall i :: 0 < i < |ts| ==> ts[i] == ts[1..][i - 1];
      (if ts[0].id == id then 1 else 0) + CountId(ts[1..], id)
  }

  // ---------------------------------------------------------------------------
  // Delete: `tasks.filter(t => t.id !== id)`

  /** The records of `ts` whose id is not `id`: one record fewer per match. */
  function Remove(ts: seq<Task>, id: int): (r: seq<Task>)
    ensures |r| == |ts| - CountId(ts, id)
  {
    if ts == [] then []
    else if ts[0].id == id then Remove(ts[1..], id)
    else [ts[0]] + Remove(ts[1..], id)
  }

  /** A record survives the delete exactly when it was in the list and does not
      carry `id`; in particular no record with `id` remains. */
  lemma {:induction false} RemoveMembers(ts: seq<Task>, id: int, t: Task)
    ensures t in Remove(ts, id) <==> t in ts && t.id != id
  {
    if ts != [] {
      assert ts == [ts[0]] + ts[1..];
      RemoveMembers(ts[1..], id, t);
    }
  }

  /** Deleting an id that no record carries leaves the list as it was. */
  lemma {:induction false} RemoveAbsent(ts: seq<Task>, id: int)
    requires !HasId(ts, id)
    ensures Remove(ts, id) == ts
  {
    if ts != [] {
      assert ts[0].id != id;
      assert !HasId(ts[1..], id) by {
        forall i | 0 <= i < |ts[1..]| ensures ts[1..][i].id != id {
          assert ts[1..][i] == ts[i + 1];
        }
      }
      RemoveAbsent(ts[1..], id);
    }
  }

  /** Filtering works piecewise: the survivors of `a + b` are the survivors of
      `a` followed by those of `b`, so no two records change their relative order. */
  lemma {:induction false} RemoveAppend(a: seq<Task>, b: seq<Task>, id: int)
    ensures Remove(a + b, id) == Remove(a, id) + Remove(b, id)
  {
    if a == [] {
      assert a + b == b;
    } else {
      var ab := a + b;
      assert ab[0] == a[0] && ab[1..] == a[1..] + b;
      RemoveAppend(a[1..], b, id);
      if a[0].id == id {
        assert Remove(ab, id) == Remove(a[1..] + b, id);
        assert Remove(a, id) == Remove(a[1..], id);
      } else {
        assert Remove(ab, id) == [a[0]] + Remove(a[1..] + b, id);
        assert Remove(a, id) == [a[0]] + Remove(a[1..], id);
      }
    }
  }

  /** A record kept by the delete lands at the position given by the number of
      kept records before it. */
  lemma RemovePosition(ts: seq<Task>, id: int, i: nat)
    requires i < |ts| && ts[i].id != id
    ensures |Remove(ts[..i], id)| < |Remove(ts, id)|
    ensures Remove(ts, id)[|Remove(ts[..i], id)|] == ts[i]
  {
    assert ts == ts[..i] + ts[i..];
    RemoveAppend(ts[..i], ts[i..], id);
    assert ts[i..] == [ts[i]] + ts[i + 1..];
  }

  /** Those positions increase along the original list: a kept record at `i`
      precedes, after the delete, every record at a later index `j`. */
  lemma PositionsIncrease(ts: seq<Task>, id: int, i: nat, j: nat)
    requires i < j <= |ts| && ts[i].id != id
    ensures |Remove(ts[..i], id)| < |Remove(ts[..j], id)|
  {
    var pre := ts[..j];
    assert pre[..i] == ts[..i] && pre[i] == ts[i];
    RemovePosition(pre, id, i);
  }

  /** Deleting twice is deleting once. */
  lemma {:induction false} RemoveIdempotent(ts: seq<Task>, id: int)
    ensures Remove(Remove(ts, id), id) == Remove(ts, id)
  {
    var r := Remove(ts, id);
    assert !HasId(r, id) by {
      forall i | 0 <= i < |r| ensures r[i].id != id {
        RemoveMembers(ts, id, r[i]);
      }
    }
    RemoveAbsent(r, id);
  }

  // ---------------------------------------------------------------------------
  // Toggle: `tasks.map(t => t.id === id ? {...t, done: !t.done} : t)`

  /** `ts` with `done` flipped on every record carrying `id`: same length, same
      order, every id and text kept, and every other record left identical. */
  function Toggle(ts: seq<Task>, id: int): (r: seq<Task>)
    ensures |r| == |ts|
    ensures forall i :: 0 <= i < |ts| ==> r[i].id == ts[i].id && r[i].text == ts[i].text
    ensures forall i :: 0 <= i < |ts| ==>
              if ts[i].id == id then r[i].done == !ts[i].done else r[i] == ts[i]
  {
    if ts == [] then []
    else
      var head := if ts[0].id == id then ts[0].(done := !ts[0].done) else ts[0];
      [head] + Toggle(ts[1..], id)
  }

  /** Toggling the same id twice restores the original list. */
  lemma ToggleInvolution(ts: seq<Task>, id: int)
    ensures Toggle(Toggle(ts, id), id) == ts
  {
  }

  /** Toggling an id that no record carries leaves the list as it was. */
  lemma ToggleAbsent(ts: seq<Task>, id: int)
    requires !HasId(ts, id)
    ensures Toggle(ts, id) == ts
  {
  }

  // ---------------------------------------------------------------------------
  // Save edit: `tasks.map(t => t.id === id ? {...t, text: editingText} : t)`

  /** `ts` with `text` overwritten on every record carrying `id` (blank text
      included): same length, same order, every id and flag kept, and every
      other record left identical. */
  function SetText(ts: seq<Task>, id: int, text: string): (r: seq<Task>)
    ensures |r| == |ts|
    ensures forall i :: 0 <= i < |ts| ==> r[i].id == ts[i].id && r[i].done == ts[i].done
    ensures forall i :: 0 <= i < |ts| ==>
              if ts[i].id == id then r[i].text == text else r[i] == ts[i]
  {
    if ts == [] then []
    else
      var head := if ts[0].id == id then ts[0].(text := text) else ts[0];
      [head] + SetText(ts[1..], id, text)
  }

  /** Saving an edit for an id that no record carries leaves the list as it was. */
  lemma SetTextAbsent(ts: seq<Task>, id: int, text: string)
    requires !HasId(ts, id)
    ensures SetText(ts, id, text) == ts
  {
  }

  /** Completion and text are independent: toggling one id and saving an edit
      on another (or the same) id give the same list in either order. */
  lemma ToggleSetTextCommute(ts: seq<Task>, toggled: int, edited: int, text: string)
    ensures Toggle(SetText(ts, edited, text), toggled) == SetText(Toggle(ts, toggled), edited, text)
  {
  }
}
