/** Tables as maps from primary key to row, application writes, and the theory of a journaled rewrite. */
module Relational {
  datatype Option<+T> = None | Some(value: T)

  type Id = string

  /** One application write: an insert or update of a row, or a delete. */
  datatype Write<+R> = Put(id: Id, row: R) | Remove(id: Id)

  function Apply<R>(w: Write<R>, t: map<Id, R>): map<Id, R> {
    match w
    case Put(id, row) => t[id := row]
    case Remove(id) => t - {id}
  }

  /** A finite run of application writes, oldest first. */
  function Run<R>(ws: seq<Write<R>>, t: map<Id, R>): map<Id, R> {
    if ws == [] then t else Run(ws[1..], Apply(ws[0], t))
  }

  lemma RunOne<R>(w: Write<R>, t: map<Id, R>)
    ensures Run([w], t) == Apply(w, t)
  {
    assert [w][1..] == [];
    assert Run([w][1..], Apply(w, t)) == Apply(w, t);
  }

  lemma RunTwo<R>(v: Write<R>, w: Write<R>, t: map<Id, R>)
    ensures Run([v, w], t) == Apply(w, Apply(v, t))
  {
    assert [v, w][1..] == [w];
    RunOne(w, Apply(v, t));
  }

  ghost predicate Avoids<R>(ws: seq<Write<R>>, ids: set<Id>) {
    forall k :: 0 <= k < |ws| ==> ws[k].id !in ids
  }

  /** UPDATE t SET ... FROM journal j WHERE j.client_id = t.client_id. */
  function Restore<R, J>(t: map<Id, R>, journal: map<Id, J>, put: (J, R) -> R): map<Id, R> {
    map id | id in t :: if id in journal then put(journal[id], t[id]) else t[id]
  }

  /** `journal` records enough to turn every row of `after` back into its row of `before`. */
  ghost predicate Records<R, J>(before: map<Id, R>, after: map<Id, R>, journal: map<Id, J>, put: (J, R) -> R) {
    && after.Keys == before.Keys
    && journal.Keys <= before.Keys
    && (forall id :: id in before ==>
          before[id] == if id in journal then put(journal[id], after[id]) else after[id])
  }

  /**
   * The undo law of a journal: whatever the application wrote meanwhile to other rows, including
   * rows that look exactly like rewritten ones, restoring from the journal gives the table the
   * same writes would have given had the rewrite never happened.
   */
  lemma {:induction false} UndoCommutes<R, J>(ws: seq<Write<R>>, before: map<Id, R>, after: map<Id, R>,
                                              journal: map<Id, J>, put: (J, R) -> R)
    requires Records(before, after, journal, put)
    requires Avoids(ws, journal.Keys)
    ensures Restore(Run(ws, after), journal, put) == Run(ws, before)
  {
    if ws == [] {
      assert Restore(after, journal, put) == before;
    } else {
      assert ws[0].id !in journal;
      UndoCommutes(ws[1..], Apply(ws[0], before), Apply(ws[0], after), journal, put);
    }
  }

  lemma RestoreStep<R, J>(w: Write<R>, a: map<Id, R>, b: map<Id, R>, journal: map<Id, J>, put: (J, R) -> R)
    requires a.Keys == b.Keys && Restore(a, journal, put) == Restore(b, journal, put)
    ensures Apply(w, a).Keys == Apply(w, b).Keys
    ensures Restore(Apply(w, a), journal, put) == Restore(Apply(w, b), journal, put)
  {
    forall id | id in Apply(w, a)
      ensures Restore(Apply(w, a), journal, put)[id] == Restore(Apply(w, b), journal, put)[id]
    {
      if id in a && Apply(w, a)[id] == a[id] && Apply(w, b)[id] == b[id] {
        assert Restore(a, journal, put)[id] == Restore(b, journal, put)[id];
      }
    }
  }

  /** Two tables that restore alike still do after the same writes. */
  lemma {:induction false} RestoreAlike<R, J>(ws: seq<Write<R>>, a: map<Id, R>, b: map<Id, R>,
                                              journal: map<Id, J>, put: (J, R) -> R)
    requires a.Keys == b.Keys && Restore(a, journal, put) == Restore(b, journal, put)
    ensures Run(ws, a).Keys == Run(ws, b).Keys
    ensures Restore(Run(ws, a), journal, put) == Restore(Run(ws, b), journal, put)
  {
    if ws != [] {
      RestoreStep(ws[0], a, b, journal, put);
      RestoreAlike(ws[1..], Apply(ws[0], a), Apply(ws[0], b), journal, put);
    }
  }

  /** The row already says what its journal entry, if any, would put there. */
  ghost predicate Agrees<R, J>(t: map<Id, R>, journal: map<Id, J>, put: (J, R) -> R) {
    forall id :: id in t && id in journal ==> put(journal[id], t[id]) == t[id]
  }

  /**
   * The undo law for any traffic at all. Restoring gives the table the same writes would have given without
   * the rewrite, with every journaled row put back on top; so it gives exactly that table if and only if the
   * writes left every journaled row they kept saying what the journal says.
   */
  lemma UndoExactly<R, J>(ws: seq<Write<R>>, before: map<Id, R>, after: map<Id, R>,
                          journal: map<Id, J>, put: (J, R) -> R)
    requires Records(before, after, journal, put) && forall j, r :: put(j, put(j, r)) == put(j, r)
    ensures Restore(Run(ws, after), journal, put) == Restore(Run(ws, before), journal, put)
    ensures Restore(Run(ws, after), journal, put) == Run(ws, before) <==> Agrees(Run(ws, before), journal, put)
  {
    assert Restore(after, journal, put) == Restore(before, journal, put);
    RestoreAlike(ws, after, before, journal, put);
    var t := Run(ws, before);
    assert forall id :: id in t ==>
             Restore(t, journal, put)[id] == if id in journal then put(journal[id], t[id]) else t[id];
  }

  /** Writes that avoid a set of ids leave those rows where they are. */
  lemma {:induction false} RunKeeps<R>(ws: seq<Write<R>>, t: map<Id, R>, ids: set<Id>)
    requires Avoids(ws, ids)
    ensures forall id :: id in ids ==> (id in Run(ws, t) <==> id in t) && (id in t ==> Run(ws, t)[id] == t[id])
  {
    if ws != [] {
      assert ws[0].id !in ids;
      RunKeeps(ws[1..], Apply(ws[0], t), ids);
    }
  }

  /** Writes that remove none of these ids keep them all. */
  lemma {:induction false} RunRemovesNone<R>(ws: seq<Write<R>>, t: map<Id, R>, ids: set<Id>)
    requires ids <= t.Keys && forall k :: 0 <= k < |ws| && ws[k].Remove? ==> ws[k].id !in ids
    ensures ids <= Run(ws, t).Keys
  {
    if ws != [] {
      assert ws[0].Remove? ==> ws[0].id !in ids;
      RunRemovesNone(ws[1..], Apply(ws[0], t), ids);
    }
  }

  /** A set that maps one-to-one into `b` by `f` is no larger than `b`, and as large exactly when it covers `b`. */
  lemma {:induction false} InjectiveInto<A, B(!new)>(a: set<A>, b: set<B>, f: A -> B)
    requires forall x :: x in a ==> f(x) in b
    requires forall x, y :: x in a && y in a && f(x) == f(y) ==> x == y
    ensures |a| <= |b|
    ensures |a| == |b| <==> forall z :: z in b ==> exists x :: x in a && f(x) == z
    decreases a
  {
    if a == {} {
      assert |b| == 0 <==> b == {};
    } else {
      var x :| x in a;
      var a', b' := a - {x}, b - {f(x)};
      InjectiveInto(a', b', f);
      if forall z :: z in b ==> exists y :: y in a && f(y) == z {
        forall z | z in b' ensures exists y :: y in a' && f(y) == z {
          var y :| y in a && f(y) == z;
          assert y in a';
        }
      }
      if |a| == |b| {
        forall z | z in b ensures exists y :: y in a && f(y) == z {
          if z != f(x) {
            assert z in b';
            var y :| y in a' && f(y) == z;
          }
        }
      }
    }
  }
}
