/** The "tasks" collection of the document store, as the screens use it: a map
    from document id to the document's fields, queried by equality on fields,
    written one document at a time. */
module Store {
  import opened Common

  type Id = string

  /** The fields of one document of the "tasks" collection. */
  datatype Record = Record(userId: string, title: string, date: string, complete: bool)

  /** One document of a query answer: its id and its fields. */
  datatype Doc = Doc(id: Id, data: Record)

  /** A task as a screen holds it in its list: the document id spread together
      with the document's fields. */
  datatype Task = Task(id: Id, userId: string, title: string, date: string, complete: bool)
  {
    function Fields(): Record {
      Record(userId, title, date, complete)
    }
  }

  /** The list entry built from a query document, `{ id: doc.id, ...doc.data() }`. */
  function Spread(d: Doc): (t: Task)
    ensures t.id == d.id && t.Fields() == d.data
  {
    Task(d.id, d.data.userId, d.data.title, d.data.date, d.data.complete)
  }

  /** A query's where-clauses: the owner's uid and, optionally, the date string. */
  datatype Filter = Filter(uid: string, date: Option<string>)

  predicate Matches(r: Record, f: Filter) {
    r.userId == f.uid && (f.date.Some? ==> r.date == f.date.value)
  }

  /** Task `t` is one of the documents that filter `f` selects from `docs`. */
  predicate Selected(docs: map<Id, Record>, f: Filter, t: Task) {
    t.id in docs && docs[t.id] == t.Fields() && Matches(t.Fields(), f)
  }

  predicate UniqueIds(ts: seq<Task>) {
    forall i, j :: 0 <= i < j < |ts| ==> ts[i].id != ts[j].id
  }

  /** `rows` lists every document of `docs` that `f` selects, each once, in
      some order the store chooses. */
  ghost predicate IsAnswer(rows: seq<Doc>, docs: map<Id, Record>, f: Filter) {
    (forall i, j :: 0 <= i < j < |rows| ==> rows[i].id != rows[j].id) &&
    (forall d :: d in rows <==> d.id in docs && docs[d.id] == d.data && Matches(d.data, f))
  }

  /** A string longer than every id in `ids`, hence not one of them. */
  ghost function LongerThanAll(ids: set<Id>): (s: Id)
    ensures forall k :: k in ids ==> |k| < |s|
  {
    if ids == {} then "" else
      var k :| k in ids;
      var s' := LongerThanAll(ids - {k});
      if |s'| > |k| then s' else k + "x"
  }

  class TaskStore {
    var docs: map<Id, Record>

    constructor (initial: map<Id, Record>)
      ensures docs == initial
    {
      docs := initial;
    }

    /** getDocs(query(...)): on success, every selected document exactly once;
        the order is left to the store. */
    method Query(f: Filter, outcome: Outcome) returns (rows: Option<seq<Doc>>)
      ensures rows.Some? <==> outcome == Success
      ensures rows.Some? ==> IsAnswer(rows.value, docs, f)
    {
      if outcome == Failure {
        return None;
      }
      var out: seq<Doc> := [];
      var rest := docs.Keys;
      while rest != {}
        invariant rest <= docs.Keys
        invariant forall i, j :: 0 <= i < j < |out| ==> out[i].id != out[j].id
        invariant forall d :: d in out ==> d.id !in rest
        invariant forall d :: d in out <==>
          d.id in docs && d.id !in rest && docs[d.id] == d.data && Matches(d.data, f)
        decreases rest
      {
        var k :| k in rest;
        if Matches(docs[k], f) {
          out := out + [Doc(k, docs[k])];
        }
        rest := rest - {k};
      }
      rows := Some(out);
    }

    /** addDoc: on success the record is stored under a fresh id. */
    method Add(r: Record, outcome: Outcome) returns (id: Option<Id>)
      modifies this
      ensures id.Some? <==> outcome == Success
      ensures id.Some? ==> id.value !in old(docs) && docs == old(docs)[id.value := r]
      ensures id.None? ==> docs == old(docs)
    {
      if outcome == Failure {
        return None;
      }
      ghost var longer := LongerThanAll(docs.Keys);
      assert longer !in docs.Keys;
      var newId :| newId !in docs.Keys;
      docs := docs[newId := r];
      id := Some(newId);
    }

    /** updateDoc(ref, { complete: v }): fails when the call fails or the
        document does not exist. */
    method UpdateComplete(id: Id, v: bool, outcome: Outcome) returns (ok: bool)
      modifies this
      ensures ok <==> outcome == Success && id in old(docs)
      ensures ok ==> docs == old(docs)[id := old(docs)[id].(complete := v)]
      ensures !ok ==> docs == old(docs)
    {
      ok := outcome == Success && id in docs;
      if ok {
        docs := docs[id := docs[id].(complete := v)];
      }
    }

    /** updateDoc(ref, { title: t }): fails when the call fails or the
        document does not exist. */
    method UpdateTitle(id: Id, t: string, outcome: Outcome) returns (ok: bool)
      modifies this
      ensures ok <==> outcome == Success && id in old(docs)
      ensures ok ==> docs == old(docs)[id := old(docs)[id].(title := t)]
      ensures !ok ==> docs == old(docs)
    {
      ok := outcome == Success && id in docs;
      if ok {
        docs := docs[id := docs[id].(title := t)];
      }
    }

    /** deleteDoc: deleting a document that does not exist also succeeds. */
    method Delete(id: Id, outcome: Outcome) returns (ok: bool)
      modifies this
      ensures ok <==> outcome == Success
      ensures ok ==> docs == old(docs) - {id}
      ensures !ok ==> docs == old(docs)
    {
      ok := outcome == Success;
      if ok {
        docs := docs - {id};
      }
    }
  }
}
