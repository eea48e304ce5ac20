/**
 * The exporter object of `visegrad/api/base.py` and its per-parliament
 * `make_chamber`: it holds the memoised chamber (`_chamber`), the cache of
 * remote ids (`_ids`) and the log, and talks to the remote store. Every
 * method is proved to leave exactly the state, and answer exactly the
 * result, of the matching function of module `Export`, whose properties
 * are proved there; `Valid()` (the cache and the chamber point at stored
 * documents) is kept by every method.
 */
module ApiExport {
  import opened Records
  import opened Store
  import opened Reconcile
  import opened Parliaments
  import Export

  /** The phases from the `i`-th up to the `j`-th, excluded, in order. */
  function PhasesBetween(i: nat, j: nat): (r: seq<Export.Phase>)
    requires i <= j <= |Export.AllPhases|
    ensures |r| == j - i
    decreases j - i
  {
    if i == j then [] else [Export.AllPhases[i]] + PhasesBetween(i + 1, j)
  }

  lemma {:induction false} PhasesBetweenSlice(i: nat, j: nat)
    requires i <= j <= |Export.AllPhases|
    ensures PhasesBetween(i, j) == Export.AllPhases[i..j]
    decreases j - i
  {
    if i < j {
      PhasesBetweenSlice(i + 1, j);
    }
  }

  lemma AppendAssociates<T>(a: seq<T>, b: seq<T>, c: seq<T>)
    ensures a + b + c == a + (b + c)
  {
  }

  class VisegradApiExport {
    /** The parliament, the chamber index and the buffered scraper output. */
    const config: Export.Config
    /** The remote API the exporter writes to. */
    var store: Store
    /** `_chamber`: the chamber record, once made. */
    var chamber: Option<Resp>
    /** `_ids`: remote ids already looked up, by `"scheme/identifier"`. */
    var ids: map<string, string>
    /** The phases whose message was logged so far, in order. */
    var log: seq<Export.Phase>

    function Snapshot(): Export.State
      reads this
    {
      Export.State(store, chamber, ids)
    }

    ghost predicate Valid()
      reads this
    {
      Export.Sound(Snapshot())
    }

    constructor (config: Export.Config, remote: Store)
      ensures this.config == config && store == remote
      ensures chamber == None && ids == map[] && log == []
      ensures Valid()
    {
      this.config := config;
      store := remote;
      chamber := None;
      ids := map[];
      log := [];
    }

    /**
     * `get_or_create`: look the item up by its endpoint's filter, then create
     * it or replace the first match, and raise on a status other than OK.
     */
    method GetOrCreate(endpoint: string, item: Record) returns (r: Result<Resp>)
      requires Valid()
      modifies this
      ensures (store, r) == Reconcile.GetOrCreate(old(store), endpoint, item)
      ensures chamber == old(chamber) && ids == old(ids) && log == old(log)
      ensures Valid()
    {
      ghost var st0 := Snapshot();
      Export.SoundAfterGrowth(st0, Reconcile.GetOrCreate(store, endpoint, item).0);
      var where := LookupFilter(endpoint, item);
      if where.Err? {
        return Err(where.error);
      }
      var (s1, found) := Find(store, endpoint, where.value);
      store := s1;
      var ack: Ack;
      if found == [] {
        var (s2, a) := Post(store, endpoint, item);
        store, ack := s2, a;
      } else {
        var (s2, a) := Put(store, endpoint, found[0].id, item);
        store, ack := s2, a;
      }
      if ack.status != OK {
        return Err(StatusError(ack.status));
      }
      r := Ok(Resp(ack.id, found == []));
    }

    /** `batch_create`: one call carrying every item; its answer is not checked. */
    method BatchCreate(endpoint: string, items: seq<Record>)
      requires Valid()
      modifies this
      ensures store == BatchPost(old(store), endpoint, items)
      ensures chamber == old(chamber) && ids == old(ids) && log == old(log)
      ensures Valid()
    {
      Export.SoundAfterGrowth(Snapshot(), BatchPost(store, endpoint, items));
      store := BatchPost(store, endpoint, items);
    }

    /**
     * `get_remote_id`: answer a cached id, or query the collection of the
     * scheme's category and cache the id of the first record found.
     */
    method GetRemoteId(scheme: Value, identifier: Value) returns (r: Result<Value>)
      requires Valid()
      modifies this
      ensures (Snapshot(), r) == Export.RemoteId(old(Snapshot()), scheme, identifier)
      ensures log == old(log)
      ensures Valid()
    {
      Export.RemoteIdSound(Snapshot(), scheme, identifier);
      var key := Export.CacheKey(scheme, identifier);
      if key in ids {
        return Ok(Str(ids[key]));
      }
      if !scheme.Str? {
        return Err(AttributeError);
      }
      var category := Export.Category(scheme.s);
      if category.Err? {
        return Err(category.error);
      }
      var (s1, found) := Find(store, Export.EndpointOf(category.value), Export.IdentifierQuery(scheme, identifier));
      store := s1;
      if found != [] {
        ids := ids[key := found[0].id];
        return Ok(Str(found[0].id));
      }
      r := Ok(Null);
    }

    /**
     * `make_chamber(index)`: the Hungarian exporter reconciles all seven
     * terms and answers the one at `index`; the others reconcile their one
     * chamber.
     */
    method MakeChamber() returns (r: Result<Resp>)
      requires Valid()
      modifies this
      ensures (store, r) == Export.MakeChamber(old(store), config.parliament, config.chamberIndex)
      ensures chamber == old(chamber) && ids == old(ids) && log == old(log)
      ensures Valid()
    {
      if config.parliament == ParlamentHu {
        var all := ReconcileChambers(ChamberRecords(ParlamentHu));
        r := if all.Err? then Err(all.error) else PyIndex(all.value, config.chamberIndex);
      } else {
        r := GetOrCreate("organizations", ChamberRecords(config.parliament)[0]);
      }
    }

    /** Reconciles chamber records one after the other, stopping at the first error. */
    method ReconcileChambers(records: seq<Record>) returns (r: Result<seq<Resp>>)
      requires Valid()
      modifies this
      ensures (store, r) == ReconcileAll(old(store), "organizations", records)
      ensures chamber == old(chamber) && ids == old(ids) && log == old(log)
      ensures Valid()
    {
      ghost var s0 := store;
      var results: seq<Resp> := [];
      var i := 0;
      while i < |records|
        invariant 0 <= i <= |records|
        invariant chamber == old(chamber) && ids == old(ids) && log == old(log)
        invariant Valid()
        invariant ReconcileAll(s0, "organizations", records[..i]) == (store, Ok(results))
      {
        ReconcileAllPrefix(s0, "organizations", records, i);
        var resp := GetOrCreate("organizations", records[i]);
        if resp.Err? {
          ReconcileAllStops(s0, "organizations", records, i + 1);
          return Err(resp.error);
        }
        results := results + [resp.value];
        i := i + 1;
      }
      assert records[..i] == records;
      r := Ok(results);
    }

    /** `get_chamber`: make the chamber the first time only. */
    method GetChamber() returns (r: Result<Resp>)
      requires Valid()
      modifies this
      ensures (Snapshot(), r) == Export.GetChamber(old(Snapshot()), config)
      ensures log == old(log)
      ensures Valid()
    {
      Export.GetChamberSound(Snapshot(), config);
      if chamber.Some? {
        return Ok(chamber.value);
      }
      r := MakeChamber();
      if r.Ok? {
        chamber := Some(r.value);
      }
    }

    /**
     * The loop of `export_people`, `export_organizations` and
     * `export_motions`: every record, with `field` set first when one is
     * given, is reconciled in order until one raises.
     */
    method ReconcileEach(endpoint: string, items: seq<Record>, field: Option<(string, Value)>)
      returns (outcome: Outcome)
      requires Valid()
      modifies this
      ensures var sent := if field.Some? then Export.WithField(items, field.value.0, field.value.1) else items;
        (Snapshot(), outcome) == Export.ReconcileRecords(old(Snapshot()), endpoint, sent)
      ensures log == old(log)
      ensures Valid()
    {
      ghost var s0 := store;
      ghost var sent := if field.Some? then Export.WithField(items, field.value.0, field.value.1) else items;
      ghost var answers: seq<Resp> := [];
      var i := 0;
      while i < |items|
        invariant 0 <= i <= |items|
        invariant chamber == old(chamber) && ids == old(ids) && log == old(log)
        invariant Valid()
        invariant ReconcileAll(s0, endpoint, sent[..i]) == (store, Ok(answers))
      {
        var item := items[i];
        if field.Some? {
          item := item[field.value.0 := field.value.1];
        }
        assert item == sent[i];
        ReconcileAllNext(s0, endpoint, sent, i, store, answers);
        var resp := GetOrCreate(endpoint, item);
        if resp.Err? {
          ReconcileAllStops(s0, endpoint, sent, i + 1);
          return Fail(resp.error);
        }
        answers := answers + [resp.value];
        i := i + 1;
      }
      assert sent[..i] == sent;
      outcome := Pass;
    }

    /** `export_people` */
    method ExportPeople() returns (outcome: Outcome)
      requires Valid()
      modifies this
      ensures (Snapshot(), outcome) == Export.PeoplePhase(old(Snapshot()), config)
      ensures log == old(log)
      ensures Valid()
    {
      var ch := GetChamber();
      if ch.Err? {
        return Fail(ch.error);
      }
      var people := Export.Load(config.files, "people").value;
      outcome := ReconcileEach("people", people, None);
    }

    /** `export_organizations` */
    method ExportOrganizations() returns (outcome: Outcome)
      requires Valid()
      modifies this
      ensures (Snapshot(), outcome) == Export.OrganizationsPhase(old(Snapshot()), config)
      ensures log == old(log)
      ensures Valid()
    {
      var ch := GetChamber();
      if ch.Err? {
        return Fail(ch.error);
      }
      var organizations := Export.Load(config.files, "organizations").value;
      outcome := ReconcileEach("organizations", organizations, Some(("parent_id", Str(ch.value.id))));
    }

    /** `export_motions` */
    method ExportMotions() returns (outcome: Outcome)
      requires Valid()
      modifies this
      ensures (Snapshot(), outcome) == Export.MotionsPhase(old(Snapshot()), config)
      ensures log == old(log)
      ensures Valid()
    {
      var ch := GetChamber();
      if ch.Err? {
        return Fail(ch.error);
      }
      var motions := Export.Load(config.files, "motions").value;
      outcome := ReconcileEach("motions", motions, Some(("organization_id", Str(ch.value.id))));
    }

    /** One iteration of `export_memberships`: resolve both references, then reconcile. */
    method ExportMembership(item: Record) returns (r: Result<Record>)
      requires Valid()
      modifies this
      ensures (Snapshot(), r) == Export.MembershipStep(old(Snapshot()), item)
      ensures log == old(log)
      ensures Valid()
    {
      var person := Export.Reference(item, "person_id");
      if person.Err? {
        return Err(person.error);
      }
      var personId := GetRemoteId(person.value.0, person.value.1);
      if personId.Err? {
        return Err(personId.error);
      }
      var organization := Export.Reference(item, "organization_id");
      if organization.Err? {
        return Err(organization.error);
      }
      var organizationId := GetRemoteId(organization.value.0, organization.value.1);
      if organizationId.Err? {
        return Err(organizationId.error);
      }
      var resolved := item["person_id" := personId.value]["organization_id" := organizationId.value];
      var resp := GetOrCreate("memberships", resolved);
      if resp.Err? {
        return Err(resp.error);
      }
      r := Ok(resolved);
    }

    /** `export_memberships` */
    method ExportMemberships() returns (outcome: Outcome)
      requires Valid()
      modifies this
      ensures (Snapshot(), outcome) == Export.MembershipsPhase(old(Snapshot()), config)
      ensures log == old(log)
      ensures Valid()
    {
      ghost var st0 := Snapshot();
      var memberships := Export.Load(config.files, "memberships").value;
      ghost var answers: seq<Record> := [];
      var i := 0;
      while i < |memberships|
        invariant 0 <= i <= |memberships|
        invariant log == old(log)
        invariant Valid()
        invariant Export.Fold(st0, memberships[..i], Export.MembershipStep) == (Snapshot(), Ok(answers))
      {
        Export.FoldPrefix(st0, memberships, Export.MembershipStep, i);
        var r := ExportMembership(memberships[i]);
        if r.Err? {
          Export.FoldStops(st0, memberships, Export.MembershipStep, i + 1);
          return Fail(r.error);
        }
        answers := answers + [r.value];
        i := i + 1;
      }
      assert memberships[..i] == memberships;
      outcome := Pass;
    }

    /** One iteration of the inner loop of `export_votes`: point the vote at the event, resolve its voter. */
    method PointVote(vote: Record, eventId: string) returns (r: Result<Record>)
      requires Valid()
      modifies this
      ensures (Snapshot(), r) == Export.SendVote(old(Snapshot()), vote, eventId)
      ensures log == old(log)
      ensures Valid()
    {
      var pointed := vote["vote_event_id" := Str(eventId)];
      var voter := Export.Reference(pointed, "voter_id");
      if voter.Err? {
        return Err(voter.error);
      }
      var voterId := GetRemoteId(voter.value.0, voter.value.1);
      if voterId.Err? {
        return Err(voterId.error);
      }
      r := Ok(pointed["voter_id" := voterId.value]);
    }

    /** The inner loop of `export_votes`: every vote of the event, in order, until one raises. */
    method PointVotes(votes: seq<Record>, eventId: string) returns (r: Result<seq<Record>>)
      requires Valid()
      modifies this
      ensures (Snapshot(), r) == Export.Fold(old(Snapshot()), votes, Export.VoteSender(eventId))
      ensures log == old(log)
      ensures Valid()
    {
      ghost var st0 := Snapshot();
      var sent: seq<Record> := [];
      var i := 0;
      while i < |votes|
        invariant 0 <= i <= |votes|
        invariant log == old(log)
        invariant Valid()
        invariant Export.Fold(st0, votes[..i], Export.VoteSender(eventId)) == (Snapshot(), Ok(sent))
      {
        Export.FoldPrefix(st0, votes, Export.VoteSender(eventId), i);
        var vote := PointVote(votes[i], eventId);
        if vote.Err? {
          Export.FoldStops(st0, votes, Export.VoteSender(eventId), i + 1);
          return Err(vote.error);
        }
        sent := sent + [vote.value];
        i := i + 1;
      }
      assert votes[..i] == votes;
      r := Ok(sent);
    }

    /**
     * One iteration of `export_votes`: drop the local identifier, reconcile
     * the event, and send its votes only when it was created.
     */
    method ExportVoteEvent(voteEvent: Record, votes: seq<Record>) returns (r: Result<seq<Record>>)
      requires Valid()
      modifies this
      ensures (Snapshot(), r) == Export.VoteEvent(old(Snapshot()), voteEvent, votes)
      ensures log == old(log)
      ensures Valid()
    {
      var local := Lookup(voteEvent, "identifier");
      if local.Err? {
        return Err(local.error);
      }
      var body := voteEvent - {"identifier"};
      var resp := GetOrCreate("vote-events", body);
      if resp.Err? {
        return Err(resp.error);
      }
      var filtered := Export.FilterVotes(votes, local.value);
      if filtered.Err? {
        return Err(filtered.error);
      }
      if !resp.value.created {
        return Ok([]);
      }
      r := PointVotes(filtered.value, resp.value.id);
      if r.Err? {
        return;
      }
      if filtered.value != [] {
        BatchCreate("votes", r.value);
      } else {
        r := Ok([]);
      }
    }

    /** `export_votes` */
    method ExportVotes() returns (outcome: Outcome)
      requires Valid()
      modifies this
      ensures (Snapshot(), outcome) == Export.VotesPhase(old(Snapshot()), config)
      ensures log == old(log)
      ensures Valid()
    {
      ghost var st0 := Snapshot();
      var voteEvents := Export.Load(config.files, "vote-events").value;
      var votes := Export.Load(config.files, "votes").value;
      ghost var answers: seq<seq<Record>> := [];
      var i := 0;
      while i < |voteEvents|
        invariant 0 <= i <= |voteEvents|
        invariant log == old(log)
        invariant Valid()
        invariant Export.Fold(st0, voteEvents[..i], Export.VoteEventStep(votes)) == (Snapshot(), Ok(answers))
      {
        Export.FoldPrefix(st0, voteEvents, Export.VoteEventStep(votes), i);
        var r := ExportVoteEvent(voteEvents[i], votes);
        if r.Err? {
          Export.FoldStops(st0, voteEvents, Export.VoteEventStep(votes), i + 1);
          return Fail(r.error);
        }
        answers := answers + [r.value];
        i := i + 1;
      }
      assert voteEvents[..i] == voteEvents;
      outcome := Pass;
    }

    /**
     * One step of `run_export`: log the phase's message, then run the phase.
     * `run` stands for `Export.RunPhase` under this exporter's configuration.
     */
    method LogAndRun(i: nat, ghost run: (Export.State, Export.Phase) -> (Export.State, Outcome)) returns (outcome: Outcome)
      requires i < |Export.AllPhases|
      requires Valid() && Export.RunsPhases(run, config)
      modifies this
      ensures (Snapshot(), outcome) == run(old(Snapshot()), Export.AllPhases[i])
      ensures log == old(log) + [Export.AllPhases[i]]
      ensures Valid()
    {
      ghost var st0 := Snapshot();
      log := log + [Export.AllPhases[i]];
      match Export.AllPhases[i]
      case People =>
        outcome := ExportPeople();
        assert (Snapshot(), outcome) == Export.RunPhase(st0, config, Export.People);
      case Organizations =>
        outcome := ExportOrganizations();
        assert (Snapshot(), outcome) == Export.RunPhase(st0, config, Export.Organizations);
      case Memberships =>
        outcome := ExportMemberships();
        assert (Snapshot(), outcome) == Export.RunPhase(st0, config, Export.Memberships);
      case Motions =>
        outcome := ExportMotions();
        assert (Snapshot(), outcome) == Export.RunPhase(st0, config, Export.Motions);
      case Votes =>
        outcome := ExportVotes();
        assert (Snapshot(), outcome) == Export.RunPhase(st0, config, Export.Votes);
    }

    /** The phases from the `i`-th on, each logged then run, until one raises. */
    method RunPhasesFrom(i: nat, ghost run: (Export.State, Export.Phase) -> (Export.State, Outcome)) returns (outcome: Outcome)
      requires i <= |Export.AllPhases|
      requires Valid() && Export.RunsPhases(run, config)
      modifies this
      ensures Snapshot() == Export.RunPhasesWith(run, old(Snapshot()), i).0
      ensures outcome == Export.RunPhasesWith(run, old(Snapshot()), i).2
      ensures log == old(log) + PhasesBetween(i, Export.RunPhasesWith(run, old(Snapshot()), i).1)
      ensures Valid()
      decreases |Export.AllPhases| - i
    {
      if i == |Export.AllPhases| {
        return Pass;
      }
      outcome := LogAndRun(i, run);
      if outcome.Fail? {
        assert PhasesBetween(i, i + 1) == [Export.AllPhases[i]];
        return;
      }
      ghost var started := Export.RunPhasesWith(run, Snapshot(), i + 1).1;
      outcome := RunPhasesFrom(i + 1, run);
      AppendAssociates(old(log), [Export.AllPhases[i]], PhasesBetween(i + 1, started));
    }

    /**
     * `run_export`: log a message and run each phase, in order, until one
     * raises. The messages logged are those of the phases started.
     */
    method RunExport() returns (outcome: Outcome)
      requires Valid()
      modifies this
      ensures var (st, started, o) := Export.RunExport(old(Snapshot()), config);
        Snapshot() == st && outcome == o && log == old(log) + Export.AllPhases[..started]
      ensures Valid()
    {
      Export.RunExportFrom(Snapshot(), config);
      Export.RunnerRunsPhases(config);
      outcome := RunPhasesFrom(0, Export.Runner(config));
      PhasesBetweenSlice(0, Export.RunExport(old(Snapshot()), config).1);
    }
  }
}
