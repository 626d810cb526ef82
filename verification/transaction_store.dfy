/**
 * The backend's transaction handlers: listing the caller's transactions
 * newest first, reading, creating, updating and deleting one. Each handler
 * acts for the authenticated user `u`; a transaction of another user is
 * treated exactly like a missing one.
 *
 * The collection is a sequence of documents in insertion order. Document
 * ids are given by the database; a new one is a parameter of `Create`.
 */
module TransactionStore {
  import opened Wrappers
  import opened Numbers
  import opened Sorting
  import opened Ledger

  /** The five fields a client sets; any of them may be absent. */
  datatype Fields = Fields(kind: Option<Kind>, category: Option<string>, amount: Option<int>,
                           date: Option<int>, note: Option<string>)

  /** A stored transaction: its id, its owner, and its fields. */
  datatype Doc = Doc(id: string, user: string, fields: Fields)

  /** A request body: the five fields and an owner, each present or not. */
  datatype Body = Body(kind: Option<Kind>, category: Option<string>, amount: Option<int>,
                       date: Option<int>, note: Option<string>, user: Option<string>)

  /** The status and message of a failed request. */
  datatype HttpError = HttpError(status: int, message: string)

  /** What a handler leaves: the collection, and the response or the error. */
  datatype Handled<T> = Handled(store: seq<Doc>, result: Result<T, HttpError>)

  /** The `201` response of `createTransaction`. */
  datatype Created = Created(store: seq<Doc>, status: int, doc: Doc)

  /** The body of `deleteTransaction`'s response. */
  datatype Removal = Removal(message: string, id: string)

  const NotFoundStatus: int := 404
  const CreatedStatus: int := 201
  const NotFound: string := "Transaction not found"
  const NotAuthorized: string := "Transaction not found or not authorized"
  const RemovedMessage: string := "Transaction removed"

  /** The ids in use. */
  function Ids(s: seq<Doc>): set<string> {
    set i | 0 <= i < |s| :: s[i].id
  }

  /** The database never holds two documents with one id. */
  ghost predicate UniqueIds(s: seq<Doc>) {
    forall i, j :: 0 <= i < j < |s| ==> s[i].id != s[j].id
  }

  // ---------------------------------------------------------------------------
  // getTransactions
  // ---------------------------------------------------------------------------

  /** `Transaction.find({ user: u })`: the documents of `u`, in collection order. */
  function OwnedBy(s: seq<Doc>, u: string): (r: seq<Doc>)
    ensures forall d :: multiset(r)[d] == if d.user == u then multiset(s)[d] else 0
  {
    if s == [] then []
    else
      var rest := OwnedBy(s[1..], u);
      assert s == [s[0]] + s[1..];
      (if s[0].user == u then [s[0]] else []) + rest
  }

  /** The sort key of `date`; a document without a date sorts last when newest come first. */
  function DateOf(d: Doc): Num {
    if d.fields.date.Some? then Num(d.fields.date.value) else NaN
  }

  /** `getTransactions`: every document of `u` and no other, sorted by `date` descending. */
  function List(s: seq<Doc>, u: string): (r: seq<Doc>)
    ensures forall d :: multiset(r)[d] == if d.user == u then multiset(s)[d] else 0
    ensures SortedDesc(r, DateOf)
  {
    SortDesc(OwnedBy(s, u), DateOf)
  }

  /** A document is listed exactly when it is stored and belongs to `u`. */
  lemma ListMembers(s: seq<Doc>, u: string, d: Doc)
    ensures d in List(s, u) <==> d in s && d.user == u
  {
    assert d in List(s, u) <==> multiset(List(s, u))[d] > 0;
    assert d in s <==> multiset(s)[d] > 0;
  }

  // ---------------------------------------------------------------------------
  // findById and the ownership check
  // ---------------------------------------------------------------------------

  /** `Transaction.findById(id)`: the position of the document with that id. */
  function Find(s: seq<Doc>, id: string): (r: Option<nat>)
    ensures r.Some? ==> r.value < |s| && s[r.value].id == id
    ensures r.Some? ==> forall j :: 0 <= j < r.value ==> s[j].id != id
    ensures r.None? <==> id !in Ids(s)
  {
    if s == [] then None
    else if s[0].id == id then Some(0)
    else
      match Find(s[1..], id)
      case Some(i) =>
        assert forall j :: 1 <= j <= i + 1 ==> s[j] == s[1..][j - 1];
        Some(i + 1)
      case None =>
        assert Ids(s) == {s[0].id} + Ids(s[1..]) by {
          forall x | x in Ids(s) ensures x in {s[0].id} + Ids(s[1..]) {
            var j :| 0 <= j < |s| && s[j].id == x;
            if j > 0 { assert s[1..][j - 1] == s[j]; }
          }
        }
        None
  }

  /** With unique ids, the position found is the only one holding that id. */
  lemma FindUnique(s: seq<Doc>, id: string, i: nat)
    requires UniqueIds(s) && i < |s| && s[i].id == id
    ensures Find(s, id) == Some(i)
  {
    assert id in Ids(s);
    var k := Find(s, id).value;
    assert !(k < i) && !(i < k);
  }

  /**
   * The check every single-document handler makes first: a document with
   * that id exists and belongs to `u`. Its position, when it passes.
   */
  function Owned(s: seq<Doc>, id: string, u: string): (r: Option<nat>)
    ensures r.Some? ==> r.value < |s| && s[r.value].id == id && s[r.value].user == u
    ensures r.None? ==> id !in Ids(s) || s[Find(s, id).value].user != u
  {
    match Find(s, id)
    case Some(i) => if s[i].user == u then Some(i) else None
    case None => None
  }

  /** With unique ids, the check passes exactly when some document of `u` has the id. */
  lemma OwnedSpec(s: seq<Doc>, id: string, u: string)
    requires UniqueIds(s)
    ensures Owned(s, id, u).Some? <==> exists i :: 0 <= i < |s| && s[i].id == id && s[i].user == u
  {
    if i :| 0 <= i < |s| && s[i].id == id && s[i].user == u {
      FindUnique(s, id, i);
    }
  }

  // ---------------------------------------------------------------------------
  // getTransaction
  // ---------------------------------------------------------------------------

  /** `getTransaction`: the document, or `404` when it is missing or not the caller's. */
  function Get(s: seq<Doc>, id: string, u: string): (r: Result<Doc, HttpError>)
    ensures r.Success? <==> Owned(s, id, u).Some?
    ensures r.Success? ==> r.value in s && r.value.id == id && r.value.user == u
    ensures r.Failure? ==> r.error == HttpError(NotFoundStatus, NotFound)
  {
    match Owned(s, id, u)
    case Some(i) => Success(s[i])
    case None => Failure(HttpError(NotFoundStatus, NotFound))
  }

  /** A user reads back each of their own documents, and none of anyone else's. */
  lemma GetOwn(s: seq<Doc>, i: nat, u: string)
    requires UniqueIds(s) && i < |s|
    ensures s[i].user == u ==> Get(s, s[i].id, u) == Success(s[i])
    ensures s[i].user != u ==> Get(s, s[i].id, u) == Failure(HttpError(NotFoundStatus, NotFound))
  {
    FindUnique(s, s[i].id, i);
  }

  // ---------------------------------------------------------------------------
  // createTransaction
  // ---------------------------------------------------------------------------

  /**
   * `createTransaction`: a new document owned by the caller, holding only
   * the five fields of the body; the body's own `user` is not read.
   */
  function Create(s: seq<Doc>, u: string, body: Body, newId: string): (r: Created)
    ensures r.status == CreatedStatus
    ensures r.doc.id == newId && r.doc.user == u
    ensures r.doc.fields == Fields(body.kind, body.category, body.amount, body.date, body.note)
    ensures |r.store| == |s| + 1 && r.store[..|s|] == s && r.store[|s|] == r.doc
  {
    var d := Doc(newId, u, Fields(body.kind, body.category, body.amount, body.date, body.note));
    Created(s + [d], CreatedStatus, d)
  }

  /** Whatever `user` the body names, the new document is the caller's. */
  lemma CreateIgnoresUser(s: seq<Doc>, u: string, body: Body, newId: string, other: Option<string>)
    ensures Create(s, u, body.(user := other), newId) == Create(s, u, body, newId)
  {
  }

  /** A fresh id keeps ids unique, and the caller reads the new document back. */
  lemma CreateThenGet(s: seq<Doc>, u: string, body: Body, newId: string)
    requires UniqueIds(s) && newId !in Ids(s)
    ensures UniqueIds(Create(s, u, body, newId).store)
    ensures Get(Create(s, u, body, newId).store, newId, u) == Success(Create(s, u, body, newId).doc)
  {
    var t := Create(s, u, body, newId).store;
    assert t == s + [t[|s|]];
    forall i, j | 0 <= i < j < |t| ensures t[i].id != t[j].id {
      if j == |s| {
        assert t[i] == s[i];
        assert s[i].id in Ids(s);
      }
    }
    GetOwn(t, |s|, u);
  }

  /** The caller's list gains the new document; every other user's list is unchanged. */
  lemma CreateThenList(s: seq<Doc>, u: string, body: Body, newId: string, v: string, d: Doc)
    ensures var c := Create(s, u, body, newId);
            multiset(List(c.store, v))[d] == multiset(List(s, v))[d] + (if v == u && d == c.doc then 1 else 0)
  {
    var c := Create(s, u, body, newId);
    assert c.store == s + [c.doc];
  }

  // ---------------------------------------------------------------------------
  // updateTransaction
  // ---------------------------------------------------------------------------

  /**
   * `findByIdAndUpdate(id, body)`: every field present in the body replaces
   * the stored one, the owner included.
   */
  function Apply(d: Doc, body: Body): (r: Doc)
    ensures r.id == d.id
    ensures r.user == body.user.GetOr(d.user)
    ensures r.fields.kind == (if body.kind.Some? then body.kind else d.fields.kind)
    ensures r.fields.category == (if body.category.Some? then body.category else d.fields.category)
    ensures r.fields.amount == (if body.amount.Some? then body.amount else d.fields.amount)
    ensures r.fields.date == (if body.date.Some? then body.date else d.fields.date)
    ensures r.fields.note == (if body.note.Some? then body.note else d.fields.note)
  {
    Doc(d.id, body.user.GetOr(d.user),
        Fields(if body.kind.Some? then body.kind else d.fields.kind,
               if body.category.Some? then body.category else d.fields.category,
               if body.amount.Some? then body.amount else d.fields.amount,
               if body.date.Some? then body.date else d.fields.date,
               if body.note.Some? then body.note else d.fields.note))
  }

  /** An empty body changes nothing, and applying a body twice is applying it once. */
  lemma ApplyLaws(d: Doc, body: Body)
    ensures Apply(d, Body(None, None, None, None, None, None)) == d
    ensures Apply(Apply(d, body), body) == Apply(d, body)
  {
  }

  /**
   * `updateTransaction`: `404` with the collection unchanged when the
   * document is missing or not the caller's; otherwise that document alone
   * takes the body's fields and is returned as updated.
   */
  function Update(s: seq<Doc>, id: string, u: string, body: Body): (r: Handled<Doc>)
    ensures r.result.Success? <==> Owned(s, id, u).Some?
    ensures r.result.Failure? ==> r.store == s && r.result.error == HttpError(NotFoundStatus, NotAuthorized)
    ensures r.result.Success? ==>
              var i := Owned(s, id, u).value;
              && |r.store| == |s|
              && r.store[i] == Apply(s[i], body) == r.result.value
              && forall j :: 0 <= j < |s| && j != i ==> r.store[j] == s[j]
  {
    match Owned(s, id, u)
    case Some(i) =>
      var t := s[i := Apply(s[i], body)];
      Handled(t, Success(t[i]))
    case None => Handled(s, Failure(HttpError(NotFoundStatus, NotAuthorized)))
  }

  /** An update keeps the set of ids and their uniqueness, and touches only documents with that id. */
  lemma UpdateFrame(s: seq<Doc>, id: string, u: string, body: Body)
    requires UniqueIds(s)
    ensures var t := Update(s, id, u, body).store;
            && Ids(t) == Ids(s) && UniqueIds(t)
            && forall j :: 0 <= j < |s| && s[j].id != id ==> t[j] == s[j]
  {
    var t := Update(s, id, u, body).store;
    assert forall j :: 0 <= j < |s| ==> t[j].id == s[j].id;
    assert Ids(t) == Ids(s) by {
      forall x ensures x in Ids(t) <==> x in Ids(s) {
        if x in Ids(t) { var j :| 0 <= j < |t| && t[j].id == x; assert s[j].id == x; }
        if x in Ids(s) { var j :| 0 <= j < |s| && s[j].id == x; assert t[j].id == x; }
      }
    }
  }

  /**
   * A body naming another owner moves the document to that user: afterwards
   * the caller is refused it and the new owner can read it.
   */
  lemma UpdateTransfersOwner(s: seq<Doc>, i: nat, u: string, v: string, body: Body)
    requires UniqueIds(s) && i < |s| && s[i].user == u && body.user == Some(v) && v != u
    ensures var t := Update(s, s[i].id, u, body).store;
            && Get(t, s[i].id, u) == Failure(HttpError(NotFoundStatus, NotFound))
            && Get(t, s[i].id, v) == Success(Apply(s[i], body))
  {
    FindUnique(s, s[i].id, i);
    UpdateFrame(s, s[i].id, u, body);
    var t := Update(s, s[i].id, u, body).store;
    GetOwn(t, i, u);
    GetOwn(t, i, v);
  }

  // ---------------------------------------------------------------------------
  // deleteTransaction
  // ---------------------------------------------------------------------------

  /**
   * `deleteTransaction`: `404` with the collection unchanged when the
   * document is missing or not the caller's; otherwise that document is
   * removed, the others keep their order, and the response echoes the id.
   */
  function Delete(s: seq<Doc>, id: string, u: string): (r: Handled<Removal>)
    ensures r.result.Success? <==> Owned(s, id, u).Some?
    ensures r.result.Failure? ==> r.store == s && r.result.error == HttpError(NotFoundStatus, NotAuthorized)
    ensures r.result.Success? ==>
              var i := Owned(s, id, u).value;
              && r.store == s[..i] + s[i + 1..]
              && r.result.value == Removal(RemovedMessage, id)
  {
    match Owned(s, id, u)
    case Some(i) => Handled(s[..i] + s[i + 1..], Success(Removal(RemovedMessage, id)))
    case None => Handled(s, Failure(HttpError(NotFoundStatus, NotAuthorized)))
  }

  /** Dropping position `i` shifts the later documents down by one. */
  lemma RemoveAt(s: seq<Doc>, i: nat)
    requires i < |s|
    ensures var t := s[..i] + s[i + 1..];
            && |t| == |s| - 1
            && (forall j :: 0 <= j < i ==> t[j] == s[j])
            && (forall j :: i <= j < |t| ==> t[j] == s[j + 1])
            && multiset(t) == multiset(s) - multiset{s[i]}
  {
    assert s == s[..i] + [s[i]] + s[i + 1..];
  }

  /** With unique ids, dropping position `i` drops exactly its id and keeps the rest unique. */
  lemma RemoveAtIds(s: seq<Doc>, i: nat)
    requires UniqueIds(s) && i < |s|
    ensures Ids(s[..i] + s[i + 1..]) == Ids(s) - {s[i].id}
    ensures UniqueIds(s[..i] + s[i + 1..])
  {
    var t := s[..i] + s[i + 1..];
    RemoveAt(s, i);
    forall x ensures x in Ids(t) <==> x in Ids(s) - {s[i].id} {
      if x in Ids(t) {
        var j :| 0 <= j < |t| && t[j].id == x;
        if j < i { assert s[j].id == x; } else { assert s[j + 1].id == x; }
      }
      if x in Ids(s) - {s[i].id} {
        var j :| 0 <= j < |s| && s[j].id == x;
        if j < i { assert t[j].id == x; } else { assert t[j - 1].id == x; }
      }
    }
    forall a, b | 0 <= a < b < |t| ensures t[a].id != t[b].id {
      var a' := if a < i then a else a + 1;
      var b' := if b < i then b else b + 1;
      assert t[a] == s[a'] && t[b] == s[b'];
    }
  }

  /**
   * A successful delete removes one document, the one with that id: the
   * ids left are the old ones without it, still unique, and reading it
   * afterwards gives `404`.
   */
  lemma DeleteRemoves(s: seq<Doc>, id: string, u: string)
    requires UniqueIds(s) && Delete(s, id, u).result.Success?
    ensures var t := Delete(s, id, u).store;
            && multiset(t) == multiset(s) - multiset{s[Owned(s, id, u).value]}
            && Ids(t) == Ids(s) - {id}
            && UniqueIds(t)
            && Get(t, id, u) == Failure(HttpError(NotFoundStatus, NotFound))
  {
    var i := Owned(s, id, u).value;
    RemoveAt(s, i);
    RemoveAtIds(s, i);
  }
}
