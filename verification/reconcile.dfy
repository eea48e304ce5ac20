/**
 * The upsert at the heart of the exporter (`get_or_create`): a lookup filter
 * chosen by record type, a read, then either a create or a full replacement of
 * the first match, and a status check on the write.
 */
module Reconcile {
  import opened Records
  import opened Store

  /** What `get_or_create` hands back: the written document's id and `_created`. */
  datatype Resp = Resp(id: string, created: bool)

  /** The lookup filter and sort order used for a record of the given endpoint. */
  function LookupFilter(endpoint: string, item: Record): (r: Result<Query>)
    ensures endpoint == "memberships" ==> (r.Ok? <==> "person_id" in item && "organization_id" in item)
    ensures endpoint == "vote-events" ==> (r.Ok? <==> "start_date" in item)
    ensures endpoint == "votes" ==> (r.Ok? <==> "vote_event_id" in item && "voter_id" in item)
    ensures endpoint == "motions" ==> (r.Ok? ==> "sources" in item)
    ensures IsIdentified(endpoint) ==> (r.Ok? ==> "identifiers" in item)
    ensures r.Ok? ==> (r.value.sortDesc.Some? <==> endpoint == "memberships")
    ensures r.Ok? && endpoint == "memberships" ==> r.value.sortDesc == Some("start_date")
  {
    if endpoint == "memberships" then
      var person :- Lookup(item, "person_id");
      var org :- Lookup(item, "organization_id");
      var dated := if "start_date" in item then [FieldEq("start_date", item["start_date"])] else [];
      Ok(Query([FieldEq("person_id", person), FieldEq("organization_id", org)] + dated, Some("start_date")))
    else if endpoint == "motions" then
      var sources :- Lookup(item, "sources");
      var source :- First(sources);
      var url :- Field(source, "url");
      Ok(Query([AnyElemField("sources", "url", url)], None))
    else if endpoint == "vote-events" then
      var date :- Lookup(item, "start_date");
      Ok(Query([FieldEq("start_date", date)], None))
    else if endpoint == "votes" then
      var event :- Lookup(item, "vote_event_id");
      var voter :- Lookup(item, "voter_id");
      Ok(Query([FieldEq("vote_event_id", event), FieldEq("voter_id", voter)], None))
    else
      var identifiers :- Lookup(item, "identifiers");
      var first :- First(identifiers);
      Ok(Query([ElemMatch("identifiers", first)], None))
  }

  /** Endpoints whose records are matched by their first identifier. */
  predicate IsIdentified(endpoint: string) {
    endpoint !in {"memberships", "motions", "vote-events", "votes"}
  }

  /** The first element of the item's `sources`, as the motions filter reads it. */
  function FirstSourceUrl(item: Record): Result<Value> {
    var sources :- Lookup(item, "sources");
    var source :- First(sources);
    Field(source, "url")
  }

  /** The first element of the item's `identifiers`. */
  function FirstIdentifier(item: Record): Result<Value> {
    var identifiers :- Lookup(item, "identifiers");
    First(identifiers)
  }

  /**
   * Which remote documents a lookup filter selects, endpoint by endpoint: the
   * same person and organization (and start date when the item has one) for a
   * membership, a source with the same url for a motion, the same start date for
   * a vote event, the same vote event and voter for a vote, and otherwise an
   * identifier equal to the item's first one.
   */
  lemma LookupFilterSelects(endpoint: string, item: Record, d: Doc)
    requires LookupFilter(endpoint, item).Ok?
    ensures var q := LookupFilter(endpoint, item).value;
      (endpoint == "memberships" ==>
        (Matches(d, q) <==>
          Get(d.body, "person_id") == item["person_id"]
          && Get(d.body, "organization_id") == item["organization_id"]
          && ("start_date" in item ==> Get(d.body, "start_date") == item["start_date"])))
      && (endpoint == "motions" ==>
        FirstSourceUrl(item).Ok?
        && (Matches(d, q) <==> HasSubField(Get(d.body, "sources"), "url", FirstSourceUrl(item).value)))
      && (endpoint == "vote-events" ==>
        (Matches(d, q) <==> Get(d.body, "start_date") == item["start_date"]))
      && (endpoint == "votes" ==>
        (Matches(d, q) <==>
          Get(d.body, "vote_event_id") == item["vote_event_id"]
          && Get(d.body, "voter_id") == item["voter_id"]))
      && (IsIdentified(endpoint) ==>
        FirstIdentifier(item).Ok?
        && (Matches(d, q) <==> HasElem(Get(d.body, "identifiers"), FirstIdentifier(item).value)))
  {
    var q := LookupFilter(endpoint, item).value;
    if endpoint == "memberships" {
      if Matches(d, q) {
        assert Satisfies(d, q.where[0]) && Satisfies(d, q.where[1]);
        if "start_date" in item {
          assert Satisfies(d, q.where[2]);
        }
      }
    }
    if endpoint == "votes" {
      if Matches(d, q) {
        assert Satisfies(d, q.where[0]) && Satisfies(d, q.where[1]);
      }
    }
    if endpoint == "vote-events" || endpoint == "motions" || IsIdentified(endpoint) {
      if Matches(d, q) {
        assert Satisfies(d, q.where[0]);
      }
    }
  }

  /**
   * A record stored as it was written is found again by its own filter (for
   * records matched by identifier, when `identifiers` is a list as the items
   * produce it; a string there makes the filter look for a one-character
   * element, which no list of identifiers holds).
   */
  lemma OwnRecordMatches(endpoint: string, item: Record, id: string)
    requires LookupFilter(endpoint, item).Ok?
    requires IsIdentified(endpoint) ==> item["identifiers"].Arr?
    ensures Matches(Doc(id, item), LookupFilter(endpoint, item).value)
  {
    var d := Doc(id, item);
    LookupFilterSelects(endpoint, item, d);
    if endpoint == "motions" {
      var sources := item["sources"];
      assert Field(sources.items[0], "url") == FirstSourceUrl(item);
    }
    if IsIdentified(endpoint) {
      var ids := item["identifiers"];
      assert ElemMatches(ids.items[0], ids.items[0]);
    }
  }

  /** The write `get_or_create` makes for `item` after the read. */
  predicate IsWriteOf(c: Call, endpoint: string, body: Record) {
    (c.PostCall? && c.endpoint == endpoint && c.body == body)
    || (c.PutCall? && c.endpoint == endpoint && c.body == body)
  }

  /**
   * `get_or_create(endpoint, item)` against the store `s`. With no match the
   * item is created (`created` true); otherwise the first match, in the read's
   * order, is fully replaced (`created` false). A missing lookup field raises
   * before any call; a write answered with a status other than OK raises after it.
   */
  function GetOrCreate(s: Store, endpoint: string, item: Record): (out: (Store, Result<Resp>))
    ensures LookupFilter(endpoint, item).Err? ==>
      out == (s, Err(LookupFilter(endpoint, item).error))
    ensures forall e :: e != endpoint ==> Docs(out.0, e) == Docs(s, e)
    ensures out.0.refused == s.refused
    ensures KeepsIds(s, out.0)
  {
    match LookupFilter(endpoint, item)
    case Err(e) => (s, Err(e))
    case Ok(q) =>
      var (s1, found) := Find(s, endpoint, q);
      var (s2, ack) := Write(s1, endpoint, found, item);
      CallsKeepIds(s, endpoint, "", item, [], q);
      KeepsIdsTransitive(s, s1, s2);
      (s2, if ack.status != OK then Err(StatusError(ack.status)) else Ok(Resp(ack.id, found == [])))
  }

  /** The write after the read: create when nothing was found, else replace the first match. */
  function Write(s: Store, endpoint: string, found: seq<Doc>, item: Record): (out: (Store, Ack))
    ensures KeepsIds(s, out.0)
    ensures forall e :: e != endpoint ==> Docs(out.0, e) == Docs(s, e)
    ensures out.0.refused == s.refused
  {
    CallsKeepIds(s, endpoint, if found == [] then "" else found[0].id, item, [], Query([], None));
    if found == [] then Post(s, endpoint, item) else Put(s, endpoint, found[0].id, item)
  }

  /**
   * Exactly one write follows the read: a create when the read found nothing,
   * a replacement otherwise; the call raises exactly when the collection
   * refuses the write, and reports `created` exactly when nothing was found.
   */
  lemma GetOrCreateCalls(s: Store, endpoint: string, item: Record)
    requires LookupFilter(endpoint, item).Ok?
    ensures var q := LookupFilter(endpoint, item).value;
      var out := GetOrCreate(s, endpoint, item);
      var n := |s.trace|;
      |out.0.trace| == n + 2 && out.0.trace[..n] == s.trace
      && out.0.trace[n] == GetCall(endpoint, q)
      && IsWriteOf(out.0.trace[n + 1], endpoint, item)
      && (out.0.trace[n + 1].PostCall? <==> Filter(Docs(s, endpoint), q) == [])
      && (out.1.Err? <==> endpoint in s.refused)
      && (out.1.Err? ==> out.1.error == StatusError(ERR) && out.0.collections == s.collections)
      && (out.1.Ok? ==> (out.1.value.created <==> Filter(Docs(s, endpoint), q) == []))
  {
    var q := LookupFilter(endpoint, item).value;
    var (s1, found) := Find(s, endpoint, q);
    var (s2, ack) := Write(s1, endpoint, found, item);
    assert s2.trace == s.trace + [GetCall(endpoint, q), s2.trace[|s.trace| + 1]];
  }

  /**
   * What the write does to the collection: a created item is appended under
   * its new id; otherwise the first document the read returned (in its sort
   * order) gets the item as its whole new body.
   */
  lemma GetOrCreateEffect(s: Store, endpoint: string, item: Record)
    requires GetOrCreate(s, endpoint, item).1.Ok?
    ensures var out := GetOrCreate(s, endpoint, item);
      var q := LookupFilter(endpoint, item).value;
      var found := Find(s, endpoint, q).1;
      (out.1.value.created ==> Docs(out.0, endpoint) == Docs(s, endpoint) + [Doc(out.1.value.id, item)])
      && (!out.1.value.created ==>
        found != [] && out.1.value.id == found[0].id
        && Docs(out.0, endpoint) == ReplaceBody(Docs(s, endpoint), out.1.value.id, item))
  {
    var q := LookupFilter(endpoint, item).value;
    var (s1, found) := Find(s, endpoint, q);
    assert Docs(s1, endpoint) == Docs(s, endpoint);
  }

  /**
   * Reconciling the same record again, once the first call went through,
   * creates nothing: the read finds a document and the collection keeps its
   * size. Except for a membership without a start date, the document updated
   * is the one the first call wrote. Calls in between may touch other
   * collections.
   */
  lemma SecondReconcileUpdates(s: Store, later: Store, endpoint: string, item: Record)
    requires GetOrCreate(s, endpoint, item).1.Ok?
    requires IsIdentified(endpoint) ==> item["identifiers"].Arr?
    requires Docs(later, endpoint) == Docs(GetOrCreate(s, endpoint, item).0, endpoint)
    requires later.refused == s.refused
    ensures var second := GetOrCreate(later, endpoint, item);
      second.1.Ok? && !second.1.value.created
      && |Docs(second.0, endpoint)| == |Docs(later, endpoint)|
    ensures endpoint != "memberships" || "start_date" in item ==>
      GetOrCreate(later, endpoint, item).1.value.id == GetOrCreate(s, endpoint, item).1.value.id
  {
    var (s1, r1) := GetOrCreate(s, endpoint, item);
    var q := LookupFilter(endpoint, item).value;
    var id := r1.value.id;
    ReconciledDocStored(s, endpoint, item);
    OwnRecordMatches(endpoint, item, id);
    assert Doc(id, item) in Filter(Docs(later, endpoint), q);
    GetOrCreateCalls(later, endpoint, item);
    GetOrCreateEffect(later, endpoint, item);
    if endpoint != "memberships" || "start_date" in item {
      WrittenDocFoundFirst(s, endpoint, item);
      FoundInStoreOrder(later, endpoint, item);
    }
  }

  /**
   * The read answers in store order unless it is a membership's without a
   * start date: a dated membership's matches all share the item's start date,
   * so sorting on it keeps them in place.
   */
  lemma FoundInStoreOrder(s: Store, endpoint: string, item: Record)
    requires LookupFilter(endpoint, item).Ok?
    requires endpoint != "memberships" || "start_date" in item
    ensures var q := LookupFilter(endpoint, item).value;
      Find(s, endpoint, q).1 == Filter(Docs(s, endpoint), q)
  {
    var q := LookupFilter(endpoint, item).value;
    if endpoint == "memberships" {
      var matches := Filter(Docs(s, endpoint), q);
      forall d | d in matches
        ensures Key(d, "start_date") == item["start_date"]
      {
        LookupFilterSelects(endpoint, item, d);
      }
      SortDescTies(matches, "start_date", item["start_date"]);
    }
  }

  /**
   * After a reconciliation, the first document of the collection (in store
   * order) that the record's filter selects carries the id the call answered.
   */
  lemma WrittenDocFoundFirst(s: Store, endpoint: string, item: Record)
    requires GetOrCreate(s, endpoint, item).1.Ok?
    requires IsIdentified(endpoint) ==> item["identifiers"].Arr?
    requires endpoint != "memberships" || "start_date" in item
    ensures var q := LookupFilter(endpoint, item).value;
      var out := GetOrCreate(s, endpoint, item);
      Filter(Docs(out.0, endpoint), q) != [] && Filter(Docs(out.0, endpoint), q)[0].id == out.1.value.id
  {
    var (s1, r1) := GetOrCreate(s, endpoint, item);
    var q := LookupFilter(endpoint, item).value;
    var id := r1.value.id;
    var before := Docs(s, endpoint);
    var after := Docs(s1, endpoint);
    GetOrCreateCalls(s, endpoint, item);
    GetOrCreateEffect(s, endpoint, item);
    OwnRecordMatches(endpoint, item, id);
    if r1.value.created {
      forall i | 0 <= i < |before|
        ensures !Matches(after[i], q)
      {
        assert after[i] == before[i];
        assert before[i] in before;
      }
      assert after[|before|] == Doc(id, item);
      FilterHead(after, q, |before|);
    } else {
      FoundInStoreOrder(s, endpoint, item);
      var k := FirstMatchIndex(before, q);
      assert after[k] == Doc(id, item);
      forall i | 0 <= i < k
        ensures after[i].id == id || !Matches(after[i], q)
      {
        if before[i].id != id {
          assert after[i] == before[i];
        }
      }
      var j := FirstMatchIndex(after, q);
      assert j <= k;
    }
  }

  /**
   * In a well-formed store a reconciliation keeps the store well formed; a
   * record it creates gets an id no document had, and a record it updates
   * replaces the body of exactly one document, the one holding the id answered.
   */
  lemma GetOrCreateWellFormed(s: Store, endpoint: string, item: Record)
    requires WellFormed(s)
    ensures WellFormed(GetOrCreate(s, endpoint, item).0)
    ensures var out := GetOrCreate(s, endpoint, item);
      out.1.Ok? && out.1.value.created ==> out.1.value.id !in AllIds(s)
    ensures var out := GetOrCreate(s, endpoint, item);
      out.1.Ok? && !out.1.value.created ==>
        exists k :: 0 <= k < |Docs(s, endpoint)| && Docs(s, endpoint)[k].id == out.1.value.id
          && Docs(out.0, endpoint) == Docs(s, endpoint)[k := Doc(out.1.value.id, item)]
  {
    var out := GetOrCreate(s, endpoint, item);
    match LookupFilter(endpoint, item)
    case Err(_) =>
    case Ok(q) =>
      var (s1, found) := Find(s, endpoint, q);
      FindWellFormed(s, endpoint, q);
      if found == [] {
        PostFreshId(s1, endpoint, item);
        assert AllIds(s1) == AllIds(s);
      } else {
        PutWellFormed(s1, endpoint, found[0].id, item);
        if out.1.Ok? {
          GetOrCreateEffect(s, endpoint, item);
          assert found[0] in found;
          var k :| 0 <= k < |Docs(s, endpoint)| && Docs(s, endpoint)[k] == found[0];
          ReplaceBodyChangesOne(s, endpoint, k, item);
        }
      }
  }

  /** After a reconciliation the collection holds the record under the id answered. */
  lemma ReconciledDocStored(s: Store, endpoint: string, item: Record)
    requires GetOrCreate(s, endpoint, item).1.Ok?
    ensures Doc(GetOrCreate(s, endpoint, item).1.value.id, item) in Docs(GetOrCreate(s, endpoint, item).0, endpoint)
  {
    var (s1, r1) := GetOrCreate(s, endpoint, item);
    var q := LookupFilter(endpoint, item).value;
    var id := r1.value.id;
    GetOrCreateCalls(s, endpoint, item);
    GetOrCreateEffect(s, endpoint, item);
    var docs := Docs(s1, endpoint);
    if r1.value.created {
      assert docs[|docs| - 1] == Doc(id, item);
    } else {
      var found := Find(s, endpoint, q).1;
      assert found[0] in found;
      ReplaceBodyHolds(Docs(s, endpoint), found[0], item);
    }
  }

  /** The id a successful reconciliation answers belongs to a document of the store. */
  lemma GetOrCreateStoresId(s: Store, endpoint: string, item: Record)
    requires GetOrCreate(s, endpoint, item).1.Ok?
    ensures GetOrCreate(s, endpoint, item).1.value.id in AllIds(GetOrCreate(s, endpoint, item).0)
  {
    var (s1, r) := GetOrCreate(s, endpoint, item);
    ReconciledDocStored(s, endpoint, item);
    var d := Doc(r.value.id, item);
    assert endpoint in s1.collections && d in s1.collections[endpoint];
  }

  /**
   * For a membership the record replaced is the one with the latest start date
   * among those of the same person and organization.
   */
  lemma MembershipUpdateHitsLatest(s: Store, item: Record)
    requires var out := GetOrCreate(s, "memberships", item); out.1.Ok? && !out.1.value.created
    ensures var id := GetOrCreate(s, "memberships", item).1.value.id;
      var q := LookupFilter("memberships", item).value;
      exists k :: 0 <= k < |Docs(s, "memberships")| && Docs(s, "memberships")[k].id == id
        && Matches(Docs(s, "memberships")[k], q)
        && forall d :: d in Docs(s, "memberships") && Matches(d, q) ==>
             ValueLe(Key(d, "start_date"), Key(Docs(s, "memberships")[k], "start_date"))
  {
    var q := LookupFilter("memberships", item).value;
    var docs := Docs(s, "memberships");
    var matches := Filter(docs, q);
    var found := Find(s, "memberships", q).1;
    assert found == SortDesc(matches, "start_date");
    SortDescSameDocs(matches, "start_date");
    SortDescFirstIsGreatest(matches, "start_date");
    assert found[0] in found;
    var k :| 0 <= k < |docs| && docs[k] == found[0];
  }

  /** A membership of person `p` in organization `o`, with no start date. */
  function UndatedMembership(): Record {
    map["person_id" := Str("p"), "organization_id" := Str("o")]
  }

  /** The same membership, starting on `date`. */
  function DatedMembership(date: string): Record {
    UndatedMembership()["start_date" := Str(date)]
  }

  /** The undated membership is looked up by person and organization, latest start first. */
  lemma UndatedMembershipFilter()
    ensures LookupFilter("memberships", UndatedMembership())
      == Ok(Query([FieldEq("person_id", Str("p")), FieldEq("organization_id", Str("o"))], Some("start_date")))
  {
    var item := UndatedMembership();
    assert "start_date" !in item;
    assert Lookup(item, "person_id") == Ok(Str("p")) && Lookup(item, "organization_id") == Ok(Str("o"));
    assert [FieldEq("person_id", Str("p")), FieldEq("organization_id", Str("o"))] + []
      == [FieldEq("person_id", Str("p")), FieldEq("organization_id", Str("o"))];
  }

  /** The read before the first write puts the 2012 membership first. */
  lemma UndatedFirstRead(s: Store)
    requires Docs(s, "memberships") == [Doc("a", DatedMembership("2010")), Doc("b", DatedMembership("2012"))]
    ensures Find(s, "memberships", LookupFilter("memberships", UndatedMembership()).value).1
      == [Doc("b", DatedMembership("2012")), Doc("a", DatedMembership("2010"))]
  {
    var early := Doc("a", DatedMembership("2010"));
    var late := Doc("b", DatedMembership("2012"));
    UndatedMembershipFilter();
    var q := LookupFilter("memberships", UndatedMembership()).value;
    assert Matches(early, q) && Matches(late, q);
    assert Filter([early, late], q) == [early, late];
    assert Key(early, "start_date") == Str("2010") && Key(late, "start_date") == Str("2012");
    assert !StrLe("2012", "2010");
    assert [early, late][..1] == [early] && [early, late][1] == late;
    assert SortDesc([early], "start_date") == Insert(early, SortDesc([], "start_date"), "start_date") == [early];
    assert SortDesc([early, late], "start_date") == Insert(late, [early], "start_date");
  }

  /** Once the 2012 membership lost its start date, the read puts the 2010 one first. */
  lemma UndatedSecondRead(s: Store)
    requires Docs(s, "memberships") == [Doc("a", DatedMembership("2010")), Doc("b", UndatedMembership())]
    ensures Find(s, "memberships", LookupFilter("memberships", UndatedMembership()).value).1
      == [Doc("a", DatedMembership("2010")), Doc("b", UndatedMembership())]
  {
    var early := Doc("a", DatedMembership("2010"));
    var wiped := Doc("b", UndatedMembership());
    UndatedMembershipFilter();
    var q := LookupFilter("memberships", UndatedMembership()).value;
    assert Matches(early, q) && Matches(wiped, q);
    assert Filter([early, wiped], q) == [early, wiped];
    assert Key(wiped, "start_date") == Null;
    assert [early, wiped][..1] == [early] && [early, wiped][1] == wiped;
    assert SortDesc([early], "start_date") == Insert(early, SortDesc([], "start_date"), "start_date") == [early];
    assert SortDesc([early, wiped], "start_date") == Insert(wiped, [early], "start_date");
  }

  /**
   * A membership without a start date is not pinned to one document: with a
   * 2010 and a 2012 membership of the same person and organization stored, a
   * first reconciliation overwrites the 2012 one (dropping its start date), and
   * a second one then overwrites the 2010 one.
   */
  lemma UndatedMembershipMovesOn(s: Store)
    requires Docs(s, "memberships") == [Doc("a", DatedMembership("2010")), Doc("b", DatedMembership("2012"))]
    requires "memberships" !in s.refused
    ensures var first := GetOrCreate(s, "memberships", UndatedMembership());
      var second := GetOrCreate(first.0, "memberships", UndatedMembership());
      first.1 == Ok(Resp("b", false)) && second.1 == Ok(Resp("a", false))
      && Docs(second.0, "memberships") == [Doc("a", UndatedMembership()), Doc("b", UndatedMembership())]
  {
    var item := UndatedMembership();
    UndatedMembershipFilter();
    UndatedFirstRead(s);
    GetOrCreateCalls(s, "memberships", item);
    GetOrCreateEffect(s, "memberships", item);
    var s1 := GetOrCreate(s, "memberships", item).0;
    assert Docs(s1, "memberships") == [Doc("a", DatedMembership("2010")), Doc("b", item)];
    UndatedSecondRead(s1);
    GetOrCreateCalls(s1, "memberships", item);
    GetOrCreateEffect(s1, "memberships", item);
  }

  /**
   * Reconciling a list of records in order, stopping at the first one that
   * raises (the `for` loops of the export phases).
   */
  function ReconcileAll(s: Store, endpoint: string, items: seq<Record>): (out: (Store, Result<seq<Resp>>))
    ensures out.1.Ok? ==> |out.1.value| == |items|
    ensures KeepsIds(s, out.0)
    ensures out.0.refused == s.refused
    ensures forall e :: e != endpoint ==> Docs(out.0, e) == Docs(s, e)
  {
    if items == [] then (s, Ok([]))
    else
      var (s1, r1) := ReconcileAll(s, endpoint, items[..|items| - 1]);
      if r1.Err? then (s1, r1)
      else
        var (s2, r2) := GetOrCreate(s1, endpoint, items[|items| - 1]);
        KeepsIdsTransitive(s, s1, s2);
        (s2, if r2.Err? then Err(r2.error) else Ok(r1.value + [r2.value]))
  }

  /** Reconciling a list of records keeps a well-formed store well formed. */
  lemma {:induction false} ReconcileAllWellFormed(s: Store, endpoint: string, items: seq<Record>)
    requires WellFormed(s)
    ensures WellFormed(ReconcileAll(s, endpoint, items).0)
  {
    if items != [] {
      var init := items[..|items| - 1];
      ReconcileAllWellFormed(s, endpoint, init);
      var (s1, r1) := ReconcileAll(s, endpoint, init);
      if r1.Ok? {
        GetOrCreateWellFormed(s1, endpoint, items[|items| - 1]);
      }
    }
  }

  /** The calls one record's reconciliation appended: a read, then its write. */
  predicate ReadThenWrite(t: seq<Call>, at: nat, endpoint: string, item: Record)
    requires at + 2 <= |t|
  {
    t[at].GetCall? && t[at].endpoint == endpoint && IsWriteOf(t[at + 1], endpoint, item)
  }

  /**
   * When every record goes through, each of them is read and then written once,
   * in list order, and nothing else is sent: no record is skipped.
   */
  lemma {:induction false} ReconcileAllWritesEach(s: Store, endpoint: string, items: seq<Record>)
    requires ReconcileAll(s, endpoint, items).1.Ok?
    ensures WritesEach(s.trace, ReconcileAll(s, endpoint, items).0.trace, endpoint, items)
  {
    if items != [] {
      var init := items[..|items| - 1];
      var last := items[|items| - 1];
      ReconcileAllStep(s, endpoint, items);
      ReconcileAllWritesEach(s, endpoint, init);
      var s1 := ReconcileAll(s, endpoint, init).0;
      GetOrCreateReadThenWrite(s1, endpoint, last);
      SplitLast(items);
      ReadThenWriteAppend(s.trace, s1.trace, GetOrCreate(s1, endpoint, last).0.trace, endpoint, init, last);
    }
  }

  /**
   * `t` is the trace `t0` followed by a read and a write for each of `items`,
   * in order.
   */
  predicate WritesEach(t0: seq<Call>, t: seq<Call>, endpoint: string, items: seq<Record>) {
    |t| == |t0| + 2 * |items| && t[..|t0|] == t0
    && forall k :: 0 <= k < |items| ==> ReadThenWrite(t, |t0| + 2 * k, endpoint, items[k])
  }

  lemma ReadThenWriteAppend(t0: seq<Call>, t1: seq<Call>, t: seq<Call>, endpoint: string, init: seq<Record>, last: Record)
    requires WritesEach(t0, t1, endpoint, init)
    requires |t| == |t1| + 2 && t[..|t1|] == t1 && ReadThenWrite(t, |t1|, endpoint, last)
    ensures WritesEach(t0, t, endpoint, init + [last])
  {
    assert t[..|t0|] == t[..|t1|][..|t0|];
    forall k | 0 <= k < |init + [last]|
      ensures ReadThenWrite(t, |t0| + 2 * k, endpoint, (init + [last])[k])
    {
      if k < |init| {
        ReadThenWriteExtends(t1, t, |t0| + 2 * k, endpoint, init[k]);
      }
    }
  }

  lemma GetOrCreateReadThenWrite(s: Store, endpoint: string, item: Record)
    requires GetOrCreate(s, endpoint, item).1.Ok?
    ensures var t := GetOrCreate(s, endpoint, item).0.trace;
      |t| == |s.trace| + 2 && t[..|s.trace|] == s.trace && ReadThenWrite(t, |s.trace|, endpoint, item)
  {
    GetOrCreateCalls(s, endpoint, item);
  }

  lemma ReadThenWriteExtends(t1: seq<Call>, t: seq<Call>, at: nat, endpoint: string, item: Record)
    requires at + 2 <= |t1| <= |t| && t[..|t1|] == t1
    requires ReadThenWrite(t1, at, endpoint, item)
    ensures ReadThenWrite(t, at, endpoint, item)
  {
    assert t[at] == t1[at] && t[at + 1] == t1[at + 1];
  }

  /** One step of the fold: all but the last record went through, then the last one. */
  lemma ReconcileAllStep(s: Store, endpoint: string, items: seq<Record>)
    requires items != [] && ReconcileAll(s, endpoint, items).1.Ok?
    ensures var s1 := ReconcileAll(s, endpoint, items[..|items| - 1]);
      s1.1.Ok? && GetOrCreate(s1.0, endpoint, items[|items| - 1]).1.Ok?
      && ReconcileAll(s, endpoint, items).0 == GetOrCreate(s1.0, endpoint, items[|items| - 1]).0
  {
  }

  /** Every id a successful run of reconciliations answers belongs to a document of the final store. */
  lemma {:induction false} ReconcileAllStoresIds(s: Store, endpoint: string, items: seq<Record>)
    requires ReconcileAll(s, endpoint, items).1.Ok?
    ensures var out := ReconcileAll(s, endpoint, items);
      forall k :: 0 <= k < |items| ==> out.1.value[k].id in AllIds(out.0)
  {
    if items != [] {
      var init := items[..|items| - 1];
      var (s1, r1) := ReconcileAll(s, endpoint, init);
      var (s2, r2) := GetOrCreate(s1, endpoint, items[|items| - 1]);
      ReconcileAllStoresIds(s, endpoint, init);
      GetOrCreateStoresId(s1, endpoint, items[|items| - 1]);
      KeepsIdsAllIds(s1, s2);
    }
  }

  /** The loop after one more record: the fold over the longer prefix is one step further. */
  lemma ReconcileAllPrefix(s: Store, endpoint: string, items: seq<Record>, i: nat)
    requires i < |items|
    ensures var (s1, r1) := ReconcileAll(s, endpoint, items[..i]);
      var (s2, r2) := GetOrCreate(s1, endpoint, items[i]);
      ReconcileAll(s, endpoint, items[..i + 1])
        == if r1.Err? then (s1, r1)
           else (s2, if r2.Err? then Err(r2.error) else Ok(r1.value + [r2.value]))
  {
    assert items[..i + 1][..i] == items[..i];
  }

  /** The reconciliation of one more record, given where the earlier ones left the store. */
  lemma ReconcileAllNext(s: Store, endpoint: string, items: seq<Record>, i: nat, mid: Store, answers: seq<Resp>)
    requires i < |items| && ReconcileAll(s, endpoint, items[..i]) == (mid, Ok(answers))
    ensures var (s2, r2) := GetOrCreate(mid, endpoint, items[i]);
      ReconcileAll(s, endpoint, items[..i + 1]) == (s2, if r2.Err? then Err(r2.error) else Ok(answers + [r2.value]))
  {
    ReconcileAllPrefix(s, endpoint, items, i);
  }

  /** Once a record raises, the remaining records are never reconciled. */
  lemma {:induction false} ReconcileAllStops(s: Store, endpoint: string, items: seq<Record>, i: nat)
    requires i <= |items| && ReconcileAll(s, endpoint, items[..i]).1.Err?
    ensures ReconcileAll(s, endpoint, items) == ReconcileAll(s, endpoint, items[..i])
    decreases |items| - i
  {
    if i < |items| {
      ReconcileAllPrefix(s, endpoint, items, i);
      ReconcileAllStops(s, endpoint, items, i + 1);
    } else {
      assert items[..i] == items;
    }
  }

  lemma ReconcileAllSingle(s: Store, endpoint: string, item: Record)
    ensures var out := GetOrCreate(s, endpoint, item);
      ReconcileAll(s, endpoint, [item]) == (out.0, if out.1.Err? then Err(out.1.error) else Ok([out.1.value]))
  {
    assert [item][..0] == [];
    assert ReconcileAll(s, endpoint, []) == (s, Ok([]));
    var out := GetOrCreate(s, endpoint, item);
    if out.1.Ok? {
      assert [] + [out.1.value] == [out.1.value];
    }
  }
}
