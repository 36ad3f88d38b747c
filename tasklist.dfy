/** The list logic that the Home and ViewTasks screens share: building the
    list from a query answer, the optimistic `complete` update and its
    rollback, and the show/hide-completed filter. */
module TaskList {
  import opened Store

  /** `tasks.map(task => task.id === id ? { ...task, complete: v } : task)`:
      same length, order and ids; only `complete` changes, and only where the
      id matches. */
  function Toggled(ts: seq<Task>, id: Id, v: bool): (r: seq<Task>)
    ensures |r| == |ts|
    ensures forall i :: 0 <= i < |ts| ==> r[i] == ts[i].(complete := r[i].complete)
    ensures forall i :: 0 <= i < |ts| ==> r[i].complete == (if ts[i].id == id then v else ts[i].complete)
  {
    seq(|ts|, i requires 0 <= i < |ts| => if ts[i].id == id then ts[i].(complete := v) else ts[i])
  }

  /** Writing `!v` where `v` was written restores every task with that id
      whose `complete` was `!v` before. */
  lemma ToggledRollback(ts: seq<Task>, id: Id, v: bool)
    requires forall i :: 0 <= i < |ts| && ts[i].id == id ==> ts[i].complete == !v
    ensures Toggled(Toggled(ts, id, v), id, !v) == ts
  {
    var back := Toggled(Toggled(ts, id, v), id, !v);
    forall i | 0 <= i < |ts|
      ensures back[i] == ts[i]
    {
      if ts[i].id == id {
        assert back[i] == ts[i].(complete := !v);
      }
    }
  }

  /** The checkbox of task `ts[k]` passes `!ts[k].complete`; with distinct ids,
      the rollback on failure gives back exactly the list from before the click. */
  lemma ClickRollback(ts: seq<Task>, k: nat)
    requires k < |ts| && UniqueIds(ts)
    ensures Toggled(Toggled(ts, ts[k].id, !ts[k].complete), ts[k].id, !!ts[k].complete) == ts
  {
    forall i | 0 <= i < |ts| && ts[i].id == ts[k].id
      ensures ts[i].complete == !!ts[k].complete
    {
      assert i == k;
    }
    ToggledRollback(ts, ts[k].id, !ts[k].complete);
  }

  /** The optimistic update keeps the list's ids, so distinct ids stay distinct. */
  lemma ToggledKeepsUniqueIds(ts: seq<Task>, id: Id, v: bool)
    requires UniqueIds(ts)
    ensures UniqueIds(Toggled(ts, id, v))
  {
    var r := Toggled(ts, id, v);
    forall i, j | 0 <= i < j < |r|
      ensures r[i].id != r[j].id
    {
      assert r[i].id == ts[i].id && r[j].id == ts[j].id;
    }
  }

  /** `a` is `b` with some elements left out, in the same order. */
  predicate IsSubsequence<T(==)>(a: seq<T>, b: seq<T>)
    decreases |b|
  {
    if a == [] then true
    else if b == [] then false
    else (a[0] == b[0] && IsSubsequence(a[1..], b[1..])) || IsSubsequence(a, b[1..])
  }

  predicate Shown(t: Task, showComplete: bool) {
    showComplete || !t.complete
  }

  /** `tasks.filter(task => showComplete || !task.complete)`: keeps exactly the
      shown tasks, each as often as in `ts`, in their order. */
  function Visible(ts: seq<Task>, showComplete: bool): (r: seq<Task>)
    ensures IsSubsequence(r, ts)
    ensures forall t :: t in r <==> t in ts && Shown(t, showComplete)
    ensures forall t :: multiset(r)[t] == if Shown(t, showComplete) then multiset(ts)[t] else 0
  {
    if ts == [] then []
    else
      var rest := Visible(ts[1..], showComplete);
      assert ts == [ts[0]] + ts[1..];
      if Shown(ts[0], showComplete) then [ts[0]] + rest else rest
  }

  /** With completed tasks shown the filter is the identity; with them hidden
      no completed task is visible. */
  lemma {:induction false} VisibleCases(ts: seq<Task>, showComplete: bool)
    ensures showComplete ==> Visible(ts, showComplete) == ts
    ensures !showComplete ==> forall t :: t in Visible(ts, showComplete) ==> !t.complete
  {
    if ts != [] {
      VisibleCases(ts[1..], showComplete);
      assert ts == [ts[0]] + ts[1..];
    }
  }

  /** Checking a task off under "hide completed" removes it from view. */
  lemma CheckedOffIsHidden(ts: seq<Task>, id: Id)
    ensures forall t :: t in Visible(Toggled(ts, id, true), false) ==> t.id != id
  {
    var r := Toggled(ts, id, true);
    forall t | t in Visible(r, false)
      ensures t.id != id
    {
      var i :| 0 <= i < |r| && r[i] == t;
      assert r[i].complete == (if ts[i].id == id then true else ts[i].complete);
    }
  }

  /** The `forEach(doc => tasks.push({ id: doc.id, ...doc.data() }))` loop. */
  method Collect(rows: seq<Doc>) returns (ts: seq<Task>)
    ensures |ts| == |rows|
    ensures forall i :: 0 <= i < |rows| ==> ts[i].id == rows[i].id && ts[i].Fields() == rows[i].data
  {
    ts := [];
    var i := 0;
    while i < |rows|
      invariant 0 <= i <= |rows|
      invariant |ts| == i
      invariant forall j :: 0 <= j < i ==> ts[j].id == rows[j].id && ts[j].Fields() == rows[j].data
    {
      ts := ts + [Spread(rows[i])];
      i := i + 1;
    }
  }

  /** The list collected from a query answer holds exactly the selected
      documents, each once. */
  lemma CollectedAnswer(rows: seq<Doc>, ts: seq<Task>, docs: map<Id, Record>, f: Filter)
    requires IsAnswer(rows, docs, f)
    requires |ts| == |rows|
    requires forall i :: 0 <= i < |rows| ==> ts[i].id == rows[i].id && ts[i].Fields() == rows[i].data
    ensures UniqueIds(ts)
    ensures forall t :: t in ts <==> Selected(docs, f, t)
  {
    forall t | t in ts
      ensures Selected(docs, f, t)
    {
      var i :| 0 <= i < |ts| && ts[i] == t;
      assert rows[i] == Doc(t.id, t.Fields());
      assert rows[i] in rows;
    }
    forall t | Selected(docs, f, t)
      ensures t in ts
    {
      var d := Doc(t.id, t.Fields());
      assert d in rows;
      var i :| 0 <= i < |rows| && rows[i] == d;
      assert ts[i] == t;
    }
  }

  /** A list that mirrors a query answer still mirrors it after a confirmed
      toggle: the optimistic list is what a reload would return (the query
      does not filter on `complete`). */
  lemma ToggleAgreesWithReload(ts: seq<Task>, docs: map<Id, Record>, f: Filter, id: Id, v: bool)
    requires UniqueIds(ts) && id in docs
    requires forall t :: t in ts <==> Selected(docs, f, t)
    ensures forall t :: t in Toggled(ts, id, v) <==> Selected(docs[id := docs[id].(complete := v)], f, t)
  {
    var after := docs[id := docs[id].(complete := v)];
    var r := Toggled(ts, id, v);
    forall t | t in r
      ensures Selected(after, f, t)
    {
      var i :| 0 <= i < |r| && r[i] == t;
      assert ts[i] in ts;
    }
    forall t | Selected(after, f, t)
      ensures t in r
    {
      var u := if t.id == id then t.(complete := docs[id].complete) else t;
      assert Selected(docs, f, u);
      var i :| 0 <= i < |ts| && ts[i] == u;
      assert r[i] == t;
    }
  }

  /** A reload after a successful create shows what it showed before plus the
      new document, when the new document matches the query. */
  lemma CreatedIsLoaded(docs: map<Id, Record>, f: Filter, id: Id, r: Record)
    requires id !in docs
    ensures forall t :: Selected(docs[id := r], f, t) <==>
      Selected(docs, f, t) || (Matches(r, f) && t == Spread(Doc(id, r)))
  {
    forall t | Selected(docs[id := r], f, t) && t.id == id
      ensures t == Spread(Doc(id, r))
    {
      assert t.Fields() == r;
    }
  }

  /** A reload after a successful delete shows what it showed before, less the
      deleted document. */
  lemma DeletedIsGone(docs: map<Id, Record>, f: Filter, id: Id)
    ensures forall t :: Selected(docs - {id}, f, t) <==> Selected(docs, f, t) && t.id != id
  {
  }

  /** Two tasks due the same day, A open and B done: hiding completed tasks
      shows only A, and once A is checked off nothing is shown. */
  lemma HideCompletedScenario(a: Task, b: Task)
    requires a.id != b.id && !a.complete && b.complete
    ensures Visible([a, b], false) == [a]
    ensures Visible(Toggled([a, b], a.id, true), false) == []
  {
    assert [a, b][1..] == [b];
    var r := Toggled([a, b], a.id, true);
    assert r == [a.(complete := true), b];
    assert r[1..] == [b];
  }
}
