/**
 * The task list of the to-do app and the list transformations its handlers
 * compute before handing the new list to the state setter: the id-keyed
 * `map` (rename, toggle), the `filter` (delete, filtered view) and the append.
 */
module TaskList {

  /** One to-do item, as kept in the list and persisted. */
  datatype Task = Task(id: int, text: string, completed: bool)

  /**
   * The filter buttons' three modes. The view treats every mode other than
   * "active" and "completed" as showing everything, which is All here.
   */
  datatype FilterMode = All | Active | Completed

  /** The ids of a list, in order. */
  function Ids(ts: seq<Task>): (r: seq<int>)
    ensures |r| == |ts| && forall i :: 0 <= i < |ts| ==> r[i] == ts[i].id
  {
    seq(|ts|, i requires 0 <= i < |ts| => ts[i].id)
  }

  /** No two tasks share an id (the view uses ids as element keys). */
  predicate DistinctIds(ts: seq<Task>)
  {
    forall i, j :: 0 <= i < j < |ts| ==> ts[i].id != ts[j].id
  }

  /** `a` is `b` with some elements left out, the rest in their order. */
  predicate IsSubsequence<T(==)>(a: seq<T>, b: seq<T>)
    decreases |b|
  {
    a == [] || (b != [] && ((a[0] == b[0] && IsSubsequence(a[1..], b[1..])) || IsSubsequence(a, b[1..])))
  }

  // ---------------------------------------------------------------------------
  // The id-keyed map: every task whose id matches is replaced by f of it.

  function UpdateWhere(ts: seq<Task>, id: int, f: Task -> Task): (r: seq<Task>)
    ensures |r| == |ts|
    ensures forall i :: 0 <= i < |ts| ==> r[i] == if ts[i].id == id then f(ts[i]) else ts[i]
  {
    if ts == [] then []
    else [if ts[0].id == id then f(ts[0]) else ts[0]] + UpdateWhere(ts[1..], id, f)
  }

  /** The spread `{ ...t, text }`. */
  function WithText(text: string): (f: Task -> Task)
    ensures forall t :: f(t).id == t.id && f(t).text == text && f(t).completed == t.completed
  {
    (t: Task) => t.(text := text)
  }

  /** The spread `{ ...t, completed: !t.completed }`. */
  function Flip(t: Task): (r: Task)
    ensures r.id == t.id && r.text == t.text && r.completed == !t.completed
  {
    t.(completed := !t.completed)
  }

  /**
   * The edit commit's list: order, ids and completion flags are kept, the
   * task(s) with the given id get the new text, and if no task has that id
   * nothing changes.
   */
  function Rename(ts: seq<Task>, id: int, text: string): (r: seq<Task>)
    ensures |r| == |ts| && Ids(r) == Ids(ts)
    ensures forall i :: 0 <= i < |ts| ==> r[i].completed == ts[i].completed
    ensures forall i :: 0 <= i < |ts| ==> r[i].text == if ts[i].id == id then text else ts[i].text
    ensures DistinctIds(r) <==> DistinctIds(ts)
    ensures id !in Ids(ts) ==> r == ts
  {
    UpdateWhere(ts, id, WithText(text))
  }

  /**
   * The toggle's list: order, ids and texts are kept, the completion flag
   * flips exactly on the task(s) with the given id, and if no task has that
   * id nothing changes.
   */
  function Toggle(ts: seq<Task>, id: int): (r: seq<Task>)
    ensures |r| == |ts| && Ids(r) == Ids(ts)
    ensures forall i :: 0 <= i < |ts| ==> r[i].text == ts[i].text
    ensures forall i :: 0 <= i < |ts| ==> r[i].completed == (ts[i].completed != (ts[i].id == id))
    ensures DistinctIds(r) <==> DistinctIds(ts)
    ensures id !in Ids(ts) ==> r == ts
  {
    UpdateWhere(ts, id, Flip)
  }

  /** Toggling the same id twice gives back the original list. */
  lemma ToggleTwice(ts: seq<Task>, id: int)
    ensures Toggle(Toggle(ts, id), id) == ts
  {
  }

  // ---------------------------------------------------------------------------
  // The filter: the tasks that satisfy p, in their order.

  function Keep(ts: seq<Task>, p: Task -> bool): (r: seq<Task>)
    ensures forall t :: multiset(r)[t] == if p(t) then multiset(ts)[t] else 0
    ensures forall t :: t in r <==> t in ts && p(t)
    ensures IsSubsequence(r, ts)
  {
    if ts == [] then []
    else
      var rest := Keep(ts[1..], p);
      assert ts == [ts[0]] + ts[1..];
      if p(ts[0]) then
        var r := [ts[0]] + rest;
        assert r[0] == ts[0] && r[1..] == rest;
        r
      else
        rest
  }

  /** Filtering keeps everything when every task passes. */
  lemma {:induction false} KeepAll(ts: seq<Task>, p: Task -> bool)
    requires forall i :: 0 <= i < |ts| ==> p(ts[i])
    ensures Keep(ts, p) == ts
  {
    if ts != [] {
      KeepAll(ts[1..], p);
    }
  }

  /** The tail of a list with distinct ids has distinct ids. */
  lemma DistinctTail(ts: seq<Task>)
    requires ts != [] && DistinctIds(ts)
    ensures DistinctIds(ts[1..])
  {
  }

  /** A task put in front of a list with distinct ids that lacks its id keeps ids distinct. */
  lemma DistinctCons(t: Task, ts: seq<Task>)
    requires DistinctIds(ts) && forall j :: 0 <= j < |ts| ==> ts[j].id != t.id
    ensures DistinctIds([t] + ts)
  {
  }

  /** Filtering never brings two tasks with one id together. */
  lemma {:induction false} KeepDistinct(ts: seq<Task>, p: Task -> bool)
    requires DistinctIds(ts)
    ensures DistinctIds(Keep(ts, p))
  {
    if ts != [] {
      var tail := ts[1..];
      var rest := Keep(tail, p);
      DistinctTail(ts);
      KeepDistinct(tail, p);
      if p(ts[0]) {
        forall j | 0 <= j < |rest| ensures rest[j].id != ts[0].id {
          assert rest[j] in tail;
          var k :| 0 <= k < |tail| && tail[k] == rest[j];
          assert ts[k + 1] == rest[j];
        }
        DistinctCons(ts[0], rest);
      }
    }
  }

  /** The predicate of the delete handler: the task's id differs from `id`. */
  function IdIsNot(id: int): (p: Task -> bool)
    ensures forall t :: p(t) <==> t.id != id
  {
    (t: Task) => t.id != id
  }

  /**
   * The delete's list: exactly the tasks with the given id are gone, every
   * other task stays, as often as it was there, in its order.
   */
  function Without(ts: seq<Task>, id: int): (r: seq<Task>)
    ensures forall t :: t in r <==> t in ts && t.id != id
    ensures forall t: Task :: t.id != id ==> multiset(r)[t] == multiset(ts)[t]
    ensures IsSubsequence(r, ts)
  {
    Keep(ts, IdIsNot(id))
  }

  /** Deleting an id no task has leaves the list identical. */
  lemma WithoutAbsent(ts: seq<Task>, id: int)
    requires id !in Ids(ts)
    ensures Without(ts, id) == ts
  {
    assert forall i :: 0 <= i < |ts| ==> Ids(ts)[i] != id;
    KeepAll(ts, IdIsNot(id));
  }

  /** With distinct ids, deleting removes one task if the id is present and none otherwise. */
  lemma {:induction false} WithoutLength(ts: seq<Task>, id: int)
    requires DistinctIds(ts)
    ensures |Without(ts, id)| == if id in Ids(ts) then |ts| - 1 else |ts|
  {
    if ts != [] {
      var tail := ts[1..];
      assert Ids(ts) == [ts[0].id] + Ids(tail);
      assert Without(ts, id) == (if ts[0].id != id then [ts[0]] else []) + Without(tail, id);
      DistinctTail(ts);
      if ts[0].id == id {
        assert id !in Ids(tail) by {
          forall k | 0 <= k < |tail| ensures Ids(tail)[k] != id {
            assert tail[k] == ts[k + 1];
          }
        }
        WithoutAbsent(tail, id);
      } else {
        WithoutLength(tail, id);
      }
    }
  }

  /** Deleting keeps ids distinct. */
  lemma WithoutDistinct(ts: seq<Task>, id: int)
    requires DistinctIds(ts)
    ensures DistinctIds(Without(ts, id))
  {
    KeepDistinct(ts, IdIsNot(id));
  }

  // ---------------------------------------------------------------------------
  // The filtered view.

  /** The view's per-task test for a mode. */
  predicate Shows(mode: FilterMode, t: Task)
    ensures mode == All ==> Shows(mode, t)
    ensures mode != All ==> (Shows(mode, t) <==> t.completed == (mode == Completed))
  {
    match mode
    case Active => !t.completed
    case Completed => t.completed
    case All => true
  }

  function ShownBy(mode: FilterMode): (p: Task -> bool)
    ensures forall t :: p(t) <==> Shows(mode, t)
  {
    t => Shows(mode, t)
  }

  /** The tasks a mode shows, each as often as in the list, in list order. */
  function Visible(ts: seq<Task>, mode: FilterMode): (r: seq<Task>)
    ensures forall t :: t in r <==> t in ts && Shows(mode, t)
    ensures forall t :: Shows(mode, t) ==> multiset(r)[t] == multiset(ts)[t]
    ensures IsSubsequence(r, ts)
  {
    Keep(ts, ShownBy(mode))
  }

  /** "All" shows the whole list. */
  lemma VisibleAll(ts: seq<Task>)
    ensures Visible(ts, All) == ts
  {
    KeepAll(ts, ShownBy(All));
  }

  /**
   * "Active" and "Completed" partition the list: together they hold every
   * task exactly as often as the list does, and no task is in both.
   */
  lemma VisiblePartition(ts: seq<Task>)
    ensures multiset(Visible(ts, Active)) + multiset(Visible(ts, Completed)) == multiset(ts)
    ensures |Visible(ts, Active)| + |Visible(ts, Completed)| == |ts|
    ensures forall t :: !(t in Visible(ts, Active) && t in Visible(ts, Completed))
  {
  }

  // ---------------------------------------------------------------------------
  // The append.

  /**
   * The add commit's list: the old list followed by exactly one new,
   * uncompleted task; a fresh id keeps ids distinct.
   */
  function Append(ts: seq<Task>, id: int, text: string): (r: seq<Task>)
    ensures |r| == |ts| + 1 && r[..|ts|] == ts
    ensures r[|ts|] == Task(id, text, false)
    ensures DistinctIds(ts) && id !in Ids(ts) ==> DistinctIds(r)
  {
    var r := ts + [Task(id, text, false)];
    assert DistinctIds(ts) && id !in Ids(ts) ==> DistinctIds(r) by {
      if DistinctIds(ts) && id !in Ids(ts) {
        forall i, j | 0 <= i < j < |r| ensures r[i].id != r[j].id {
          if j == |ts| {
            assert Ids(ts)[i] == r[i].id;
          }
        }
      }
    }
    r
  }
}
