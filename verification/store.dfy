/**
 * An in-memory stand-in for the remote document store that the exporter talks
 * to through the `vpapi` client: named collections of documents, each with a
 * store-assigned id. Reads filter (and optionally sort) a collection; writes
 * create, fully replace or bulk-create documents and answer with a status.
 * Which collections refuse writes is part of the state, so failing writes can
 * be chosen. Every call is appended to `trace`, so that the order and number of
 * remote calls made by the exporter can be stated.
 */
module Store {
  import opened Text
  import opened Records

  datatype Doc = Doc(id: string, body: Record)

  /** One condition of a `where` filter. */
  datatype Cond =
    | FieldEq(field: string, value: Value)                  // {field: value}
    | AnyElemField(array: string, sub: string, value: Value) // {'array.sub': value}
    | ElemMatch(array: string, pattern: Value)              // {array: {'$elemMatch': pattern}}

  /** A read: all conditions must hold; `sortDesc` names a field to sort on, descending. */
  datatype Query = Query(where: seq<Cond>, sortDesc: Option<string>)

  /** What a write answers: `_status` and the id of the written document. */
  datatype Ack = Ack(status: string, id: string)

  datatype Call =
    | GetCall(endpoint: string, query: Query)
    | PostCall(endpoint: string, body: Record, ack: Ack)
    | PutCall(endpoint: string, id: string, body: Record, ack: Ack)
    | BatchCall(endpoint: string, bodies: seq<Record>)

  datatype Store = Store(
    collections: map<string, seq<Doc>>,
    nextId: nat,
    refused: set<string>,   // collections whose writes answer a non-OK status
    trace: seq<Call>)

  const OK := "OK"
  const ERR := "ERR"

  function Docs(s: Store, endpoint: string): seq<Doc> {
    if endpoint in s.collections then s.collections[endpoint] else []
  }

  /** Every id of every document of the store. */
  function AllIds(s: Store): set<string> {
    set c, d | c in s.collections && d in s.collections[c] :: d.id
  }

  // ---------------------------------------------------------------- matching

  /** `$elemMatch`: every key of a dict pattern is present with the same value. */
  predicate ElemMatches(e: Value, pattern: Value) {
    if pattern.Obj? then
      e.Obj? && forall k :: k in pattern.fields ==> k in e.fields && e.fields[k] == pattern.fields[k]
    else e == pattern
  }

  predicate HasElem(v: Value, pattern: Value) {
    v.Arr? && exists i :: 0 <= i < |v.items| && ElemMatches(v.items[i], pattern)
  }

  /** `{'array.sub': value}`: some element of the array (or the dict itself) has `sub == value`. */
  predicate HasSubField(v: Value, sub: string, value: Value) {
    (v.Arr? && exists i :: 0 <= i < |v.items| && Field(v.items[i], sub) == Ok(value))
    || Field(v, sub) == Ok(value)
  }

  predicate Satisfies(d: Doc, c: Cond) {
    match c
    case FieldEq(f, v) => Get(d.body, f) == v
    case AnyElemField(a, sub, v) => HasSubField(Get(d.body, a), sub, v)
    case ElemMatch(a, p) => HasElem(Get(d.body, a), p)
  }

  predicate Matches(d: Doc, q: Query) {
    forall i :: 0 <= i < |q.where| ==> Satisfies(d, q.where[i])
  }

  /** The documents satisfying the query, in store order. */
  function Filter(docs: seq<Doc>, q: Query): (r: seq<Doc>)
    ensures forall i :: 0 <= i < |r| ==> Matches(r[i], q)
    ensures forall d :: d in r <==> d in docs && Matches(d, q)
    ensures |r| <= |docs|
  {
    if docs == [] then []
    else
      var rest := Filter(docs[1..], q);
      if Matches(docs[0], q) then [docs[0]] + rest else rest
  }

  // ---------------------------------------------------------------- ordering

  /** Lexicographic order on strings, by code point. */
  predicate StrLe(a: string, b: string) {
    if a == [] then true
    else if b == [] then false
    else if a[0] != b[0] then a[0] < b[0]
    else StrLe(a[1..], b[1..])
  }

  lemma {:induction false} StrLeTotal(a: string, b: string)
    ensures StrLe(a, b) || StrLe(b, a)
  {
    if a != [] && b != [] && a[0] == b[0] {
      StrLeTotal(a[1..], b[1..]);
    }
  }

  lemma {:induction false} StrLeTransitive(a: string, b: string, c: string)
    requires StrLe(a, b) && StrLe(b, c)
    ensures StrLe(a, c)
  {
    if a != [] && b != [] && c != [] && a[0] == b[0] && b[0] == c[0] {
      StrLeTransitive(a[1..], b[1..], c[1..]);
    }
  }

  /** Sort rank of a value's kind: None first, then numbers, strings, dicts, lists. */
  function Rank(v: Value): nat {
    match v
    case Null => 0
    case Num(_) => 1
    case Str(_) => 2
    case Obj(_) => 3
    case Arr(_) => 4
  }

  /** The order the store sorts values in (dicts and lists of a kind tie). */
  predicate ValueLe(a: Value, b: Value) {
    if Rank(a) != Rank(b) then Rank(a) < Rank(b)
    else match a
      case Num(x) => x <= b.n
      case Str(x) => StrLe(x, b.s)
      case _ => true
  }

  lemma ValueLeTotal(a: Value, b: Value)
    ensures ValueLe(a, b) || ValueLe(b, a)
  {
    if Rank(a) == Rank(b) && a.Str? {
      StrLeTotal(a.s, b.s);
    }
  }

  lemma ValueLeTransitive(a: Value, b: Value, c: Value)
    requires ValueLe(a, b) && ValueLe(b, c)
    ensures ValueLe(a, c)
  {
    if Rank(a) == Rank(b) == Rank(c) && a.Str? {
      StrLeTransitive(a.s, b.s, c.s);
    }
  }

  function Key(d: Doc, field: string): Value {
    Get(d.body, field)
  }

  predicate SortedDesc(docs: seq<Doc>, field: string) {
    forall i, j :: 0 <= i < j < |docs| ==> ValueLe(Key(docs[j], field), Key(docs[i], field))
  }

  /** Inserts `x` after every document whose key is not below its own (stable). */
  function Insert(x: Doc, docs: seq<Doc>, field: string): seq<Doc> {
    if docs == [] then [x]
    else if !ValueLe(Key(x, field), Key(docs[0], field)) then [x] + docs
    else [docs[0]] + Insert(x, docs[1..], field)
  }

  lemma {:induction false} InsertSorted(x: Doc, docs: seq<Doc>, field: string)
    requires SortedDesc(docs, field)
    ensures SortedDesc(Insert(x, docs, field), field)
    ensures multiset(Insert(x, docs, field)) == multiset(docs) + multiset{x}
  {
    if docs == [] {
    } else if !ValueLe(Key(x, field), Key(docs[0], field)) {
      ValueLeTotal(Key(x, field), Key(docs[0], field));
      InsertFront(x, docs, field);
    } else {
      assert SortedDesc(docs[1..], field);
      InsertSorted(x, docs[1..], field);
      InsertAfterHead(x, docs, Insert(x, docs[1..], field), field);
      HeadKeptMultiset(x, docs, Insert(x, docs[1..], field));
    }
  }

  lemma InsertFront(x: Doc, docs: seq<Doc>, field: string)
    requires docs != [] && SortedDesc(docs, field)
    requires ValueLe(Key(docs[0], field), Key(x, field))
    ensures SortedDesc([x] + docs, field)
  {
    var r := [x] + docs;
    forall i, j | 0 <= i < j < |r|
      ensures ValueLe(Key(r[j], field), Key(r[i], field))
    {
      if i == 0 && j > 1 {
        ValueLeTransitive(Key(docs[j - 1], field), Key(docs[0], field), Key(x, field));
      }
    }
  }

  /** Putting the head back in front of the tail with `x` added gives the whole with `x` added. */
  lemma HeadKeptMultiset<T>(x: T, xs: seq<T>, rest: seq<T>)
    requires xs != [] && multiset(rest) == multiset(xs[1..]) + multiset{x}
    ensures multiset([xs[0]] + rest) == multiset(xs) + multiset{x}
  {
    assert xs == [xs[0]] + xs[1..];
  }

  lemma InsertAfterHead(x: Doc, docs: seq<Doc>, rest: seq<Doc>, field: string)
    requires docs != [] && SortedDesc(docs, field)
    requires ValueLe(Key(x, field), Key(docs[0], field))
    requires SortedDesc(rest, field)
    requires multiset(rest) == multiset(docs[1..]) + multiset{x}
    ensures SortedDesc([docs[0]] + rest, field)
  {
    var r := [docs[0]] + rest;
    forall j | 0 <= j < |rest|
      ensures ValueLe(Key(rest[j], field), Key(docs[0], field))
    {
      assert rest[j] in multiset(rest);
      if rest[j] != x {
        assert rest[j] in multiset(docs[1..]);
        var k :| 0 <= k < |docs[1..]| && docs[1..][k] == rest[j];
        assert docs[k + 1] == rest[j];
      }
    }
    forall i, j | 0 <= i < j < |r|
      ensures ValueLe(Key(r[j], field), Key(r[i], field))
    {
      if i > 0 {
        assert r[i] == rest[i - 1] && r[j] == rest[j - 1];
      }
    }
  }

  /** The documents in descending order of `field` (ties keep store order). */
  function SortDesc(docs: seq<Doc>, field: string): seq<Doc> {
    if docs == [] then []
    else Insert(docs[|docs| - 1], SortDesc(docs[..|docs| - 1], field), field)
  }

  /** Sorting orders the documents by descending key and only reorders them. */
  lemma {:induction false} SortDescSorted(docs: seq<Doc>, field: string)
    ensures SortedDesc(SortDesc(docs, field), field)
    ensures multiset(SortDesc(docs, field)) == multiset(docs)
  {
    if docs != [] {
      var init := docs[..|docs| - 1];
      SortDescSorted(init, field);
      InsertSorted(docs[|docs| - 1], SortDesc(init, field), field);
      assert docs == init + [docs[|docs| - 1]];
    }
  }

  lemma SortDescSameDocs(docs: seq<Doc>, field: string)
    ensures |SortDesc(docs, field)| == |docs|
    ensures forall d :: d in SortDesc(docs, field) <==> d in docs
  {
    var r := SortDesc(docs, field);
    SortDescSorted(docs, field);
    assert |r| == |multiset(r)| == |multiset(docs)| == |docs|;
    forall d
      ensures d in r <==> d in docs
    {
      assert d in r <==> d in multiset(r);
      assert d in docs <==> d in multiset(docs);
    }
  }

  /** The first document of a sorted read has the greatest key of all matches. */
  lemma SortDescFirstIsGreatest(docs: seq<Doc>, field: string)
    requires docs != []
    ensures SortDesc(docs, field) != []
    ensures forall d :: d in docs ==> ValueLe(Key(d, field), Key(SortDesc(docs, field)[0], field))
  {
    var r := SortDesc(docs, field);
    SortDescSorted(docs, field);
    SortDescSameDocs(docs, field);
    forall d | d in docs
      ensures ValueLe(Key(d, field), Key(r[0], field))
    {
      var k :| 0 <= k < |r| && r[k] == d;
      if k > 0 {
        assert ValueLe(Key(r[k], field), Key(r[0], field));
      } else {
        ValueLeTotal(Key(d, field), Key(d, field));
      }
    }
  }

  // ---------------------------------------------------------------- calls

  /** Inserting among documents whose key ties with that of `x` puts `x` last. */
  lemma {:induction false} InsertTies(x: Doc, docs: seq<Doc>, field: string)
    requires forall d :: d in docs ==> Key(d, field) == Key(x, field)
    ensures Insert(x, docs, field) == docs + [x]
  {
    if docs != [] {
      ValueLeTotal(Key(x, field), Key(x, field));
      assert docs[0] in docs;
      InsertTies(x, docs[1..], field);
      assert docs == [docs[0]] + docs[1..];
    }
  }

  /** Sorting documents whose keys all tie leaves them in store order. */
  lemma {:induction false} SortDescTies(docs: seq<Doc>, field: string, v: Value)
    requires forall d :: d in docs ==> Key(d, field) == v
    ensures SortDesc(docs, field) == docs
  {
    if docs != [] {
      var init := docs[..|docs| - 1];
      assert docs == init + [docs[|docs| - 1]];
      SortDescTies(init, field, v);
      InsertTies(docs[|docs| - 1], init, field);
    }
  }

  /** The first document the filter keeps is the first one, in store order, that matches. */
  lemma {:induction false} FilterHead(docs: seq<Doc>, q: Query, k: nat)
    requires k < |docs| && Matches(docs[k], q)
    requires forall i :: 0 <= i < k ==> !Matches(docs[i], q)
    ensures Filter(docs, q) != [] && Filter(docs, q)[0] == docs[k]
  {
    if k > 0 {
      FilterHead(docs[1..], q, k - 1);
    }
  }

  /** Where, in store order, the first document the filter keeps sits. */
  lemma {:induction false} FirstMatchIndex(docs: seq<Doc>, q: Query) returns (k: nat)
    requires Filter(docs, q) != []
    ensures k < |docs| && Matches(docs[k], q) && Filter(docs, q)[0] == docs[k]
    ensures forall i :: 0 <= i < k ==> !Matches(docs[i], q)
  {
    if Matches(docs[0], q) {
      k := 0;
    } else {
      var rest := FirstMatchIndex(docs[1..], q);
      k := rest + 1;
    }
  }

  /** `vpapi.get(endpoint, where=..., sort=...)`: the `_items` of the answer. */
  function Find(s: Store, endpoint: string, q: Query): (out: (Store, seq<Doc>))
    ensures out.0 == s.(trace := s.trace + [GetCall(endpoint, q)])
    ensures forall d :: d in out.1 <==> d in Docs(s, endpoint) && Matches(d, q)
    ensures out.1 == [] <==> Filter(Docs(s, endpoint), q) == []
    ensures q.sortDesc.Some? ==> SortedDesc(out.1, q.sortDesc.value)
  {
    var matches := Filter(Docs(s, endpoint), q);
    var items := if q.sortDesc.Some? then SortDesc(matches, q.sortDesc.value) else matches;
    if q.sortDesc.Some? then
      SortDescSorted(matches, q.sortDesc.value);
      SortDescSameDocs(matches, q.sortDesc.value);
      (s.(trace := s.trace + [GetCall(endpoint, q)]), items)
    else
    (s.(trace := s.trace + [GetCall(endpoint, q)]), items)
  }

  function NewId(n: nat): string {
    "doc-" + NatToString(n)
  }

  /** `vpapi.post(endpoint, body)`: creates a document with a fresh id. */
  function Post(s: Store, endpoint: string, body: Record): (out: (Store, Ack))
    ensures endpoint in s.refused ==> out.1.status != OK && out.0.collections == s.collections
    ensures endpoint !in s.refused ==>
      out.1.status == OK && Docs(out.0, endpoint) == Docs(s, endpoint) + [Doc(out.1.id, body)]
    ensures forall e :: e != endpoint ==> Docs(out.0, e) == Docs(s, e)
    ensures out.0.trace == s.trace + [PostCall(endpoint, body, out.1)]
    ensures out.0.refused == s.refused
  {
    if endpoint in s.refused then
      var ack := Ack(ERR, "");
      (s.(trace := s.trace + [PostCall(endpoint, body, ack)]), ack)
    else
      var ack := Ack(OK, NewId(s.nextId));
      (s.(collections := s.collections[endpoint := Docs(s, endpoint) + [Doc(ack.id, body)]],
          nextId := s.nextId + 1,
          trace := s.trace + [PostCall(endpoint, body, ack)]), ack)
  }

  /** The documents with the body of document `id` replaced. */
  function ReplaceBody(docs: seq<Doc>, id: string, body: Record): (r: seq<Doc>)
    ensures |r| == |docs|
    ensures forall i :: 0 <= i < |docs| ==> r[i].id == docs[i].id
    ensures forall i :: 0 <= i < |docs| ==> r[i].body == if docs[i].id == id then body else docs[i].body
  {
    seq(|docs|, i requires 0 <= i < |docs| => if docs[i].id == id then Doc(id, body) else docs[i])
  }

  /** A document of `docs` carries the new body once its body is replaced. */
  lemma ReplaceBodyHolds(docs: seq<Doc>, d: Doc, body: Record)
    requires d in docs
    ensures Doc(d.id, body) in ReplaceBody(docs, d.id, body)
  {
    var k :| 0 <= k < |docs| && docs[k] == d;
    assert ReplaceBody(docs, d.id, body)[k] == Doc(d.id, body);
  }

  /** `vpapi.put(endpoint/id, body)`: replaces the whole body of document `id`. */
  function Put(s: Store, endpoint: string, id: string, body: Record): (out: (Store, Ack))
    ensures endpoint in s.refused ==> out.1.status != OK && out.0.collections == s.collections
    ensures endpoint !in s.refused ==>
      out.1 == Ack(OK, id) && Docs(out.0, endpoint) == ReplaceBody(Docs(s, endpoint), id, body)
    ensures forall e :: e != endpoint ==> Docs(out.0, e) == Docs(s, e)
    ensures out.0.trace == s.trace + [PutCall(endpoint, id, body, out.1)]
    ensures out.0.refused == s.refused
  {
    if endpoint in s.refused then
      var ack := Ack(ERR, id);
      (s.(trace := s.trace + [PutCall(endpoint, id, body, ack)]), ack)
    else
      var ack := Ack(OK, id);
      (s.(collections := s.collections[endpoint := ReplaceBody(Docs(s, endpoint), id, body)],
          trace := s.trace + [PutCall(endpoint, id, body, ack)]), ack)
  }

  function NewDocs(n: nat, bodies: seq<Record>): (r: seq<Doc>)
    ensures |r| == |bodies|
    ensures forall i :: 0 <= i < |r| ==> r[i].body == bodies[i]
    ensures forall i :: 0 <= i < |r| ==> r[i].id == NewId(n + i)
  {
    seq(|bodies|, i requires 0 <= i < |bodies| => Doc(NewId(n + i), bodies[i]))
  }

  /** `vpapi.post(endpoint, [bodies])`: bulk create. */
  function BatchPost(s: Store, endpoint: string, bodies: seq<Record>): (out: Store)
    ensures endpoint in s.refused ==> out.collections == s.collections
    ensures endpoint !in s.refused ==>
      |Docs(out, endpoint)| == |Docs(s, endpoint)| + |bodies|
      && Docs(out, endpoint)[..|Docs(s, endpoint)|] == Docs(s, endpoint)
      && forall i :: 0 <= i < |bodies| ==> Docs(out, endpoint)[|Docs(s, endpoint)| + i].body == bodies[i]
    ensures forall e :: e != endpoint ==> Docs(out, e) == Docs(s, e)
    ensures out.trace == s.trace + [BatchCall(endpoint, bodies)]
    ensures out.refused == s.refused
  {
    if endpoint in s.refused then
      s.(trace := s.trace + [BatchCall(endpoint, bodies)])
    else
      s.(collections := s.collections[endpoint := Docs(s, endpoint) + NewDocs(s.nextId, bodies)],
         nextId := s.nextId + |bodies|,
         trace := s.trace + [BatchCall(endpoint, bodies)])
  }

  // ---------------------------------------------------------------- ids are fresh

  /** No two documents of the store share an id. */
  ghost predicate DistinctIds(s: Store) {
    forall c1, i, c2, j ::
      c1 in s.collections && c2 in s.collections
      && 0 <= i < |s.collections[c1]| && 0 <= j < |s.collections[c2]| && (c1 != c2 || i != j)
      ==> s.collections[c1][i].id != s.collections[c2][j].id
  }

  /** No document carries an id the counter has yet to hand out. */
  ghost predicate UnissuedFree(s: Store) {
    forall c, i, k: nat :: c in s.collections && 0 <= i < |s.collections[c]| && s.nextId <= k
      ==> s.collections[c][i].id != NewId(k)
  }

  /** The store assigns ids the way the remote API does: each one names a single document, and new ones are unused. */
  ghost predicate WellFormed(s: Store) {
    DistinctIds(s) && UnissuedFree(s)
  }

  /** The counter never hands out the same id twice. */
  lemma NewIdInjective(a: nat, b: nat)
    requires NewId(a) == NewId(b)
    ensures a == b
  {
    assert NatToString(a) == NewId(a)[4..] && NatToString(b) == NewId(b)[4..];
    NatToStringInjective(a, b);
  }

  /** In a well-formed store an id not yet handed out belongs to no document. */
  lemma UnissuedNotStored(s: Store, k: nat)
    requires WellFormed(s) && s.nextId <= k
    ensures NewId(k) !in AllIds(s)
  {
  }

  /** A position of the store after `added` is appended to `endpoint` that is not one of the new ones. */
  lemma OldPosition(s: Store, t: Store, endpoint: string, added: seq<Doc>, c: string, i: nat)
    requires t.collections == s.collections[endpoint := Docs(s, endpoint) + added]
    requires c in t.collections && i < |t.collections[c]|
    requires c != endpoint || i < |Docs(s, endpoint)|
    ensures c in s.collections && i < |s.collections[c]| && t.collections[c][i] == s.collections[c][i]
  {
  }

  /**
   * Appending documents numbered from the counter on, and moving the counter
   * past them, keeps the store well formed.
   */
  lemma AppendWellFormed(s: Store, t: Store, endpoint: string, added: seq<Doc>)
    requires WellFormed(s)
    requires t.collections == s.collections[endpoint := Docs(s, endpoint) + added]
    requires forall i :: 0 <= i < |added| ==> added[i].id == NewId(s.nextId + i)
    requires t.nextId == s.nextId + |added|
    ensures WellFormed(t)
  {
    var m := |Docs(s, endpoint)|;
    var n := s.nextId;
    forall c1, i, c2, j | c1 in t.collections && c2 in t.collections
      && 0 <= i < |t.collections[c1]| && 0 <= j < |t.collections[c2]| && (c1 != c2 || i != j)
      ensures t.collections[c1][i].id != t.collections[c2][j].id
    {
      var aNew := c1 == endpoint && i >= m;
      var bNew := c2 == endpoint && j >= m;
      if aNew && bNew {
        assert t.collections[c1][i] == added[i - m] && t.collections[c2][j] == added[j - m];
        if t.collections[c1][i].id == t.collections[c2][j].id {
          NewIdInjective(n + (i - m), n + (j - m));
        }
      } else if aNew {
        OldPosition(s, t, endpoint, added, c2, j);
        assert t.collections[c1][i] == added[i - m];
        assert s.collections[c2][j].id != NewId(n + (i - m));
      } else if bNew {
        OldPosition(s, t, endpoint, added, c1, i);
        assert t.collections[c2][j] == added[j - m];
        assert s.collections[c1][i].id != NewId(n + (j - m));
      } else {
        OldPosition(s, t, endpoint, added, c1, i);
        OldPosition(s, t, endpoint, added, c2, j);
      }
    }
    forall c, i, k: nat | c in t.collections && 0 <= i < |t.collections[c]| && t.nextId <= k
      ensures t.collections[c][i].id != NewId(k)
    {
      if c == endpoint && i >= m {
        assert t.collections[c][i] == added[i - m];
        if added[i - m].id == NewId(k) {
          NewIdInjective(n + (i - m), k);
        }
      } else {
        OldPosition(s, t, endpoint, added, c, i);
      }
    }
  }

  /** `Post` in a well-formed store creates the document under an id no document had, and keeps the store well formed. */
  lemma PostFreshId(s: Store, endpoint: string, body: Record)
    requires WellFormed(s)
    ensures endpoint !in s.refused ==> Post(s, endpoint, body).1.id !in AllIds(s)
    ensures WellFormed(Post(s, endpoint, body).0)
  {
    if endpoint !in s.refused {
      UnissuedNotStored(s, s.nextId);
      var t := Post(s, endpoint, body).0;
      AppendWellFormed(s, t, endpoint, [Doc(NewId(s.nextId), body)]);
    }
  }

  /** A bulk create in a well-formed store numbers the new documents with unused ids, and keeps the store well formed. */
  lemma BatchPostFreshIds(s: Store, endpoint: string, bodies: seq<Record>)
    requires WellFormed(s)
    ensures endpoint !in s.refused ==>
      forall d :: d in Docs(BatchPost(s, endpoint, bodies), endpoint)[|Docs(s, endpoint)|..] ==> d.id !in AllIds(s)
    ensures WellFormed(BatchPost(s, endpoint, bodies))
  {
    var t := BatchPost(s, endpoint, bodies);
    if endpoint !in s.refused {
      var added := NewDocs(s.nextId, bodies);
      var grown := Docs(s, endpoint) + added;
      assert t.collections == s.collections[endpoint := grown];
      assert Docs(t, endpoint) == grown;
      assert grown[|Docs(s, endpoint)|..] == added;
      AppendWellFormed(s, t, endpoint, added);
      NewDocsUnissued(s, added);
    } else {
      assert t.collections == s.collections && t.nextId == s.nextId;
    }
    assert WellFormed(t);
  }

  /** Documents numbered from the counter on carry ids no stored document has. */
  lemma NewDocsUnissued(s: Store, added: seq<Doc>)
    requires WellFormed(s)
    requires forall i :: 0 <= i < |added| ==> added[i].id == NewId(s.nextId + i)
    ensures forall d :: d in added ==> d.id !in AllIds(s)
  {
  }

  /** `Put` in a well-formed store keeps it well formed: the ids stay where they were. */
  lemma PutWellFormed(s: Store, endpoint: string, id: string, body: Record)
    requires WellFormed(s)
    ensures WellFormed(Put(s, endpoint, id, body).0)
  {
  }

  /** A read changes no document, so it keeps the store well formed. */
  lemma FindWellFormed(s: Store, endpoint: string, q: Query)
    requires WellFormed(s)
    ensures WellFormed(Find(s, endpoint, q).0)
  {
  }

  /**
   * In a well-formed store, replacing the body of a stored document changes
   * that document alone: no other document carries its id.
   */
  lemma ReplaceBodyChangesOne(s: Store, endpoint: string, k: nat, body: Record)
    requires WellFormed(s) && k < |Docs(s, endpoint)|
    ensures ReplaceBody(Docs(s, endpoint), Docs(s, endpoint)[k].id, body)
      == Docs(s, endpoint)[k := Doc(Docs(s, endpoint)[k].id, body)]
  {
  }

  // ---------------------------------------------------------------- ids are never lost

  /** The ids of a collection only grow: no call deletes a document. */
  predicate KeepsIds(before: Store, after: Store) {
    forall e :: e in before.collections ==>
      e in after.collections
      && |before.collections[e]| <= |after.collections[e]|
      && forall i :: 0 <= i < |before.collections[e]| ==> after.collections[e][i].id == before.collections[e][i].id
  }

  lemma KeepsIdsAllIds(before: Store, after: Store)
    requires KeepsIds(before, after)
    ensures AllIds(before) <= AllIds(after)
  {
    forall x | x in AllIds(before)
      ensures x in AllIds(after)
    {
      var c, d :| c in before.collections && d in before.collections[c] && d.id == x;
      var i :| 0 <= i < |before.collections[c]| && before.collections[c][i] == d;
      assert after.collections[c][i] in after.collections[c];
    }
  }

  lemma KeepsIdsTransitive(a: Store, b: Store, c: Store)
    requires KeepsIds(a, b) && KeepsIds(b, c)
    ensures KeepsIds(a, c)
  {
  }

  lemma KeepsIdsReflexive(s: Store)
    ensures KeepsIds(s, s)
  {
  }

  /** A call that leaves the collections as they are keeps every id. */
  lemma ReadKeepsIds(s: Store, t: Store)
    requires t.collections == s.collections
    ensures KeepsIds(s, t)
  {
  }

  lemma CallsKeepIds(s: Store, endpoint: string, id: string, body: Record, bodies: seq<Record>, q: Query)
    ensures KeepsIds(s, Find(s, endpoint, q).0)
    ensures KeepsIds(s, Post(s, endpoint, body).0)
    ensures KeepsIds(s, Put(s, endpoint, id, body).0)
    ensures KeepsIds(s, BatchPost(s, endpoint, bodies))
  {
    WriteKeepsIds(s, Post(s, endpoint, body).0, endpoint);
    WriteKeepsIds(s, Put(s, endpoint, id, body).0, endpoint);
    WriteKeepsIds(s, BatchPost(s, endpoint, bodies), endpoint);
  }

  /** A write to one collection that keeps the ids already there keeps every id. */
  lemma WriteKeepsIds(s: Store, t: Store, endpoint: string)
    requires forall e :: e != endpoint ==> Docs(t, e) == Docs(s, e)
    requires |Docs(s, endpoint)| <= |Docs(t, endpoint)|
    requires forall i :: 0 <= i < |Docs(s, endpoint)| ==> Docs(t, endpoint)[i].id == Docs(s, endpoint)[i].id
    requires forall e :: e in s.collections ==> e in t.collections
    ensures KeepsIds(s, t)
  {
    forall e | e in s.collections
      ensures |s.collections[e]| <= |t.collections[e]|
      ensures forall i :: 0 <= i < |s.collections[e]| ==> t.collections[e][i].id == s.collections[e][i].id
    {
      assert Docs(s, e) == s.collections[e] && Docs(t, e) == t.collections[e];
    }
  }
}
