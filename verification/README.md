# Visegrad parliament scrapers and exporter, modelled in Dafny

The Visegrad project scrapes the parliaments of Hungary (parlament.hu), Poland
(mojepanstwo.pl) and Montenegro (skupstina.me) into Popolo-style items:
people, organizations, memberships, motions, vote events, votes, speeches and
events. It then exports these items to a remote parliamentary API. That
export is a reconciliation: for each item it looks up a matching stored
document, then creates it when there is none or replaces it when there is one.

This project models that core on values and proves properties of it.

- **The remote API** (`store.dfy`). `Store.Store` is a value, not a client
  over HTTP. It holds one sequence of documents per endpoint, a counter for
  new ids and a trace of every call made. A store is well formed
  (`Store.WellFormed`) when no two documents share an id and no document holds
  an id the counter has yet to hand out. Every call keeps a store well formed,
  and in a well-formed store each created document gets an id no document had. Endpoints in `refused` answer writes
  with a status other than `OK`. Queries follow the API's `where`/`sort`
  semantics: plain field equality, equality on any element of a list field,
  and `$elemMatch`. A descending sort is stable.
- **`get_or_create`** (`reconcile.dfy`). The lookup and its create-or-replace
  decision, with the exact error raised when a write is refused.
- **The export layer of `visegrad/api/base.py`**:
  - `export.dfy` holds the specification functions: people, organizations,
    memberships, motions, vote events and votes. They work over a state of
    store, chamber and remote-id cache. Lemmas prove cache soundness, which
    calls reach the store, and what ends up stored.
  - `exporter.dfy` holds the class `ApiExport.VisegradApiExport`. Its fields
    are the store, the chamber, the id cache and the log. Each method is a
    loop proved equal to the matching specification function, and each keeps
    the cache sound.
- **Per-parliament chamber lookup and speech export**
  (`visegrad/api/parliaments.py`, in `parliaments.dfy`). This includes the
  speaker-name normalisation.
- **Shared scraper code**:
  - `pipelines.dfy`: the duplicates pipeline, a class holding the set of
    ids seen so far, and the output file names;
  - `loaders.dfy`: the item loaders and their input/output processors;
  - `items.dfy`: items and their field processors, with URL joining;
    gender parsing lives in `pl_spider.dfy` and date parsing in
    `loaders.dfy`;
  - `serializers.dfy` and `utils.dfy`.
- **The three spiders**, each in its own file:
  - `hu_spider.dfy`: Hungarian API URLs, vote-date windows and party lookup;
  - `pl_spider.dfy`: the Polish start requests, pagination, gender, vote
    counts and votes;
  - `me_spider.dfy`: Montenegrin person ids, request building, and the
    grouping of the motions table into motions.
- **Shared value types**:
  - `text.dfy`: string helpers;
  - `records.dfy`: JSON-like values, Python indexing and errors;
  - `urls.dfy`: URL quoting, parsing and joining.

A Python exception is modelled as an `Err` value of the `Result` datatype,
carrying the exception's kind. A generator that raises part way through is
modelled as the items it yielded plus how it ended.

## Model

| member | source | states |
|---|---|---|
| Records.PyIndex | visegrad/api/parliaments.py:147 | `results[index]` succeeds exactly for `-len <= index < len`; a non-negative index picks that element, a negative one counts from the end; otherwise IndexError |
| Records.Get | visegrad/api/parliaments.py:49 | `dict.get`: the stored value when the key is present, None otherwise |
| Records.Field | visegrad/api/base.py:167-171 | `d[k]` succeeds exactly when `d` is a dict holding `k`, and then gives its value |
| Records.First | visegrad/api/base.py:89 | `v[0]` on a list succeeds exactly when the list is non-empty and gives its first element; None or a number raises TypeError |
| Records.Lookup | visegrad/api/base.py:82-83 | `item[k]` succeeds exactly when the key is present, and gives its value |
| Store.Filter | visegrad/api/base.py:101 | the documents a `where` filter selects are exactly the documents of the collection that satisfy every condition, in store order |
| Store.Find | visegrad/api/base.py:101 | `vpapi.get` records one read call; its `_items` are exactly the matching documents of the collection, and they are sorted descending on the sort field when one is given |
| Store.SortDescSorted | visegrad/api/base.py:87 | `SortDesc`: sorting on `start_date` descending yields a descending sequence that is a permutation of the matches |
| Store.SortDescSameDocs | visegrad/api/base.py:87 | sorting keeps the number of documents and the set of documents |
| Store.SortDescFirstIsGreatest | visegrad/api/base.py:87 | the first document of a sorted read has a start date no smaller than any other match |
| Store.InsertSorted | visegrad/api/base.py:87 | inserting one document into a descending sequence keeps it descending and adds exactly that document |
| Store.StrLeTotal | visegrad/api/base.py:87 | the string order used to sort is total |
| Store.StrLeTransitive | visegrad/api/base.py:87 | the string order used to sort is transitive |
| Store.ValueLeTotal | visegrad/api/base.py:87 | the value order used to sort is total |
| Store.ValueLeTransitive | visegrad/api/base.py:87 | the value order used to sort is transitive |
| Store.Post | visegrad/api/base.py:103 | `vpapi.post` appends the body under the id it answers and answers OK, or answers a non-OK status and changes nothing when the collection refuses writes; other collections are unchanged and the call is recorded (that the id is fresh is `Store.PostFreshId`) |
| Store.ReplaceBody | visegrad/api/base.py:107 | the document with the given id gets the new body as a whole; every other document and every id is unchanged |
| Store.Put | visegrad/api/base.py:107 | `vpapi.put("endpoint/id")` replaces the whole body of that document and answers OK with its id, or answers a non-OK status and changes nothing; the call is recorded |
| Store.BatchPost | visegrad/api/base.py:114-115 | `vpapi.post(endpoint, items)` appends one document per body, in order, after the existing ones; the call is recorded |
| Store.NewIdInjective | visegrad/api/base.py:103 | the ids the store hands out for different counter values differ |
| Store.UnissuedNotStored | visegrad/api/base.py:103 | in a well-formed store no document holds an id the counter has yet to hand out |
| Store.AppendWellFormed | visegrad/api/base.py:103-115 | appending documents numbered from the counter on, and moving the counter past them, keeps a store well formed |
| Store.PostFreshId | visegrad/api/base.py:103 | in a well-formed store `vpapi.post` creates the document under an id no document had, and the store stays well formed |
| Store.BatchPostFreshIds | visegrad/api/base.py:114-115 | in a well-formed store a bulk create gives each new document an id no earlier document had, and the store stays well formed (so the new ids also differ from each other) |
| Store.NewDocsUnissued | visegrad/api/base.py:114-115 | documents numbered from the counter on carry ids no stored document has |
| Store.PutWellFormed | visegrad/api/base.py:107 | `vpapi.put` keeps a store well formed: every id stays where it was |
| Store.FindWellFormed | visegrad/api/base.py:101 | a read keeps a store well formed |
| Store.ReplaceBodyChangesOne | visegrad/api/base.py:106-107 | in a well-formed store, replacing the body of a stored document changes that document alone |
| Store.InsertTies | visegrad/api/base.py:87 | a document inserted among documents whose sort key equals its own goes last: the sort is stable |
| Store.SortDescTies | visegrad/api/base.py:87 | sorting documents whose keys all tie leaves them in store order |
| Store.FilterHead | visegrad/api/base.py:101 | the first document a filter selects is the first one, in store order, that matches |
| Store.FirstMatchIndex | visegrad/api/base.py:101 | the first document a filter selects sits at a matching position with no match before it |
| Store.KeepsIdsAllIds | visegrad/api/base.py:100-115 | when no id is removed, the set of all ids only grows |
| Store.KeepsIdsTransitive | visegrad/api/base.py:100-115 | "no id removed" composes across calls |
| Store.CallsKeepIds | visegrad/api/base.py:100-115 | reads, creates, replacements and batch creates never remove or renumber a document |
| Store.WriteKeepsIds | visegrad/api/base.py:103-107 | a write to one collection that keeps its existing ids keeps every id of the store |
| Reconcile.LookupFilter | visegrad/api/base.py:79-99 | the filter can be built exactly when the fields it reads are there: person_id and organization_id for memberships, start_date for vote events, vote_event_id and voter_id for votes, sources for motions, identifiers otherwise; only memberships are sorted, on start_date descending |
| Reconcile.LookupFilterSelects | visegrad/api/base.py:79-99 | a document matches the filter exactly when: for memberships it has the same person_id and organization_id (and start_date when the item has one); for motions a source with the item's first source url; for vote events the same start_date; for votes the same vote_event_id and voter_id; otherwise an identifiers element equal to the item's first identifier |
| Reconcile.OwnRecordMatches | visegrad/api/base.py:79-99 | a record stored exactly as written is found again by its own filter |
| Reconcile.GetOrCreate | visegrad/api/base.py:78-112 | a filter that cannot be built raises before any call; only the endpoint's collection changes, and no id is removed |
| Reconcile.GetOrCreateCalls | visegrad/api/base.py:100-111 | exactly one read and then exactly one write of the item; the write is a create exactly when the read found nothing; the call raises exactly when the write's status is not OK, and `_created` is true exactly when nothing was found |
| Reconcile.GetOrCreateEffect | visegrad/api/base.py:102-107 | a created item is appended under its new id (an id no document had, in a well-formed store: `Reconcile.GetOrCreateWellFormed`); otherwise the first document of the read gets the item as its whole new body, under its own id |
| Reconcile.SecondReconcileUpdates | visegrad/api/base.py:79-107 | reconciling the same record a second time creates nothing and keeps the collection's size; except for a membership without a start date, it updates the document the first call wrote (for an undated membership see `Reconcile.UndatedMembershipMovesOn`) |
| Reconcile.FoundInStoreOrder | visegrad/api/base.py:80-101 | the read answers the matches in store order, except for a membership without a start date: a dated membership's matches share the item's start date, so the sort keeps them in place |
| Reconcile.WrittenDocFoundFirst | visegrad/api/base.py:100-107 | after a reconciliation (other than of an undated membership), the first document in store order that the record's filter selects carries the id the call answered |
| Reconcile.GetOrCreateWellFormed | visegrad/api/base.py:100-107 | in a well-formed store a reconciliation keeps the store well formed; a created record gets an id no document had, and an update replaces exactly one document, the one holding the id answered |
| Reconcile.UndatedMembershipFilter | visegrad/api/base.py:80-87 | a membership without a start date is looked up by person and organization alone, sorted on start date descending |
| Reconcile.UndatedFirstRead | visegrad/api/base.py:80-87 | with a 2010 and a 2012 membership of the same person and organization stored, the undated read answers the 2012 one first |
| Reconcile.UndatedSecondRead | visegrad/api/base.py:80-87 | once the 2012 membership lost its start date, the undated read answers the 2010 one first, a missing start date sorting lowest |
| Reconcile.UndatedMembershipMovesOn | visegrad/api/base.py:80-107 | reconciling an undated membership twice, with a 2010 and a 2012 membership stored, overwrites the 2012 one first and the 2010 one second, leaving both without a start date |
| Reconcile.ReconciledDocStored | visegrad/api/base.py:102-107 | after a successful reconciliation the collection holds the record under the id answered |
| Reconcile.GetOrCreateStoresId | visegrad/api/base.py:102-107 | the id answered belongs to a document of the store |
| Reconcile.MembershipUpdateHitsLatest | visegrad/api/base.py:80-107 | a membership update replaces the match with the latest start date among those of the same person and organization |
| Reconcile.ReconcileAll | visegrad/api/base.py:151-152 | reconciling a list in order answers one response per record when none raises; only that collection changes and no id is removed |
| Reconcile.ReconcileAllWellFormed | visegrad/api/base.py:151-152 | reconciling a list of records keeps a well-formed store well formed |
| Reconcile.ReconcileAllWritesEach | visegrad/api/base.py:151-152 | when every record goes through, the calls sent are exactly one read and one write per record, in list order: no record is skipped |
| Reconcile.ReconcileAllStoresIds | visegrad/api/parliaments.py:144-146 | every id answered by a run of reconciliations belongs to a document of the final store |
| Reconcile.ReconcileAllStops | visegrad/api/parliaments.py:144-146 | once a record raises, no later record is reconciled |
| Reconcile.ReconcileAllPrefix | visegrad/api/parliaments.py:144-146 | one more loop iteration is one more step of the fold: the next record's reconciliation, appended to the results |
| Reconcile.Write | visegrad/api/base.py:102-107 | creating or replacing the first match never removes a stored id |
| Export.SpeechesNotLoadable | visegrad/api/base.py:24-31 | `load_json('speeches')` raises KeyError: `FILES` has no entry for speeches |
| Export.SpeechWithoutIdentifiersRaises | visegrad/api/base.py:97-99 | a record without `identifiers` sent to speeches raises KeyError('identifiers') before any call, leaving the store unchanged |
| Export.Load | visegrad/api/base.py:66-76 | `load_json` succeeds exactly for a source named in `FILES`, and yields no record when that file does not exist; an existing file's records are taken already decoded, the decoding being `DecodeLines` |
| Export.RStripAscii | visegrad/api/base.py:75 | `rstrip()` removes exactly the trailing whitespace: the result is a prefix that ends in a non-space, and only whitespace was cut |
| Export.TrimLine | visegrad/api/base.py:75 | a trimmed line neither starts with `[` nor ends with `,`, and is no longer than the line |
| Export.TrimLineFraming | visegrad/api/base.py:75 | trimming a line gives back the record text exactly, whatever opening brackets, commas, closing brackets and trailing whitespace frame it |
| Export.TrimTail | visegrad/api/base.py:75 | the three right-strips in order remove exactly a tail of commas, closing brackets and whitespace |
| Export.LStripFraming | visegrad/api/base.py:75 | `lstrip('[')` removes exactly the leading brackets |
| Export.RStripAsciiFraming | visegrad/api/base.py:75 | `rstrip()` removes exactly the trailing whitespace |
| Export.RStripCharFraming | visegrad/api/base.py:75 | `rstrip(c)` removes exactly the trailing run of `c` |
| Export.DecodeTexts | visegrad/api/base.py:74-76 | `json.loads` over the trimmed lines, the decoder a parameter: the records come out in line order, each the decoding of its own line; the generator stops at the first line that does not decode, with that line's error, and ends cleanly exactly when every line decodes |
| Export.DecodeFramedLines | visegrad/api/base.py:74-76 | `DecodeLines`: lines whose trimmed texts all decode yield exactly their records, in order, and no error |
| Export.BareBracketLine | visegrad/api/base.py:75-76 | a line holding only `[` or `]` trims to the empty text, so under a decoder that rejects it (as `json.loads('')` does) the file yields nothing and raises at that line |
| Export.SoundAfterGrowth | visegrad/api/base.py:136-144 | cached ids and the memoised chamber stay ids of stored documents while the store only grows |
| Export.Category | visegrad/api/base.py:122 | a category answered by `scheme.split('/')` is the part after the scheme's only '/'; a failed split raises ValueError |
| Export.CategoryOfScheme | visegrad/api/base.py:122 | a `domain/category` scheme with no other '/' has that category |
| Export.RemoteId | visegrad/api/base.py:117-137 | `get_remote_id` never writes: collections and the chamber are unchanged, and the answer is an id string or None |
| Export.RemoteIdCache | visegrad/api/base.py:117-137 | a cached key answers its id with no query. Otherwise exactly one query goes to organizations for committees, parties and chamber, and to the category's own collection for any other category. A hit answers the first match's id and caches it; a miss answers None and caches nothing. A non-string scheme raises AttributeError, a scheme without exactly one '/' raises ValueError. The cache key is `CacheKey` and the collection `EndpointOf` |
| Export.RemoteIdFound | visegrad/api/base.py:128-137 | an id found by query belongs to a document whose identifiers contain the scheme and identifier pair |
| Export.RemoteIdSound | visegrad/api/base.py:136 | the cache only ever holds ids of stored documents |
| Export.RemoteIdReads | visegrad/api/base.py:117-137 | resolving a reference sends only reads |
| Export.MakeChamber | visegrad/api/parliaments.py:21-164 | making the chamber never removes a document |
| Export.MakeChamberStored | visegrad/api/parliaments.py:21-164 | the chamber answered is a stored document |
| Export.HungarianChamberIndex | visegrad/api/parliaments.py:142-147 | all seven Hungarian chambers are reconciled in order before `results[index]`; the index succeeds exactly for -7..6, with Python's negative indexing |
| Export.GetChamber | visegrad/api/base.py:142-145 | the corrected `get_chamber`, which passes the configured chamber index to `make_chamber`: it leaves the id cache as it is and never removes a document |
| Export.ChamberMadeOnce | visegrad/api/base.py:142-145 | with the corrected `get_chamber`: once the chamber has been made, asking again answers the same chamber and sends nothing |
| Export.GetChamberAsWritten | visegrad/api/base.py:142-145 | `get_chamber` as written: with no chamber memoised it raises TypeError, because `make_chamber()` gets no `index`, and leaves the state as it was; with one memoised it answers it |
| Export.GetChamberAsWrittenAgrees | visegrad/api/base.py:142-145 | once a chamber is memoised, `get_chamber` as written and corrected answer alike; before, the one as written fails wherever the corrected one makes the chamber |
| Export.PhaseRaisesAsWritten | visegrad/api/base.py:147-182 | `RunPhaseAsWritten`: as written, `export_people`, `export_organizations` and `export_motions` raise TypeError at their first statement when no chamber is memoised, and change nothing |
| Export.RunExportRaisesAsWritten | visegrad/api/base.py:54-148 | `RunExportAsWritten`: as written, an export from an exporter with no chamber, as the constructor leaves it, starts one phase and raises TypeError in it; no chamber is made and nothing is sent |
| Export.PhaseKeepsMemoisedChamber | visegrad/api/base.py:142-203 | with a chamber memoised, every phase keeps it |
| Export.RunAsWrittenAgrees | visegrad/api/base.py:54-182 | with a chamber memoised, the phases as written run exactly as the corrected ones, so the two exports differ only in making the first chamber |
| Export.GetChamberSound | visegrad/api/base.py:142-145 | the memoised chamber is a stored document |
| Export.Fold | visegrad/api/base.py:165-174 | a record loop that goes through answers one result per record |
| Export.FoldPrefix | visegrad/api/base.py:165-174 | one more loop iteration is one more step of the fold |
| Export.FoldStops | visegrad/api/base.py:165-174 | after a record raises, the loop does nothing more |
| Export.FoldInvariant | visegrad/api/base.py:165-174 | a state property kept by every step holds after the loop |
| Export.FoldWrites | visegrad/api/base.py:165-174 | when every step writes the record it answers, the loop writes all of its answers, in order |
| Export.FoldAnswers | visegrad/api/base.py:165-174 | a relation between each step's answer and its record holds for every answer of the loop |
| Export.Reference | visegrad/api/base.py:167-201 | reading `item[field]['scheme']` and `item[field]['identifier']` succeeds exactly when the field is a dict holding both keys |
| Export.Resolve | visegrad/api/base.py:166-171 | a resolved reference had a scheme and an identifier, and resolves to an id string or None |
| Export.FilterVotes | visegrad/api/base.py:191-194 | the filter keeps exactly the votes whose vote_event_id equals the local identifier; a vote without that field raises KeyError |
| Export.WithField | visegrad/api/base.py:158-182 | every record gets the field set to the value, and every other field is kept |
| Export.RunExport | visegrad/api/base.py:54-64 | between one and five phases start, and fewer than five only when one raised |
| Export.RunFrom | visegrad/api/base.py:54-64 | running from phase `i` starts no phase before `i` |
| Export.RunFromPass | visegrad/api/base.py:54-64 | a phase that passes hands the state to the next phase |
| Export.RunFromFail | visegrad/api/base.py:54-64 | a phase that raises ends the run with its own state and error, and no later phase starts |
| Export.RunExportFrom | visegrad/api/base.py:54-64 | `run_export` runs people, organizations, memberships, motions and votes one after the other, in that order |
| Export.RunFromSound | visegrad/api/base.py:54-64 | the remaining phases keep cache and chamber soundness |
| Export.ReadsSendNothing | visegrad/api/base.py:128 | a run of reads creates, replaces and batches nothing |
| Export.GetOrCreateSends | visegrad/api/base.py:100-107 | a reconciliation writes its record exactly once and sends no batch |
| Export.ReadThenWrite | visegrad/api/base.py:101-107 | a read followed by one write adds exactly that record to the writes |
| Export.ResolveReads | visegrad/api/base.py:166-171 | resolving a reference only reads and keeps the chamber |
| Export.ResolveSound | visegrad/api/base.py:166-171 | resolving keeps the cache sound |
| Export.MembershipResolved | visegrad/api/base.py:165-173 | `ResolveMembership`: a membership's person_id becomes what resolving the person answered, and then its organization_id becomes what resolving the organization answered, even when that is None; every other field is unchanged |
| Export.UpdatesKeepFields | visegrad/api/base.py:172-173 | overwriting the two references keeps the membership's other fields |
| Export.MembershipStepWrites | visegrad/api/base.py:165-174 | `MembershipStep`: a membership that goes through is written once, as resolved |
| Export.MembershipsAllSent | visegrad/api/base.py:162-174 | no membership is skipped: every membership of the file is written once, in file order, with both references resolved |
| Export.MembershipStepSound | visegrad/api/base.py:165-174 | a membership step keeps the cache sound |
| Export.SendVotePoints | visegrad/api/base.py:197-201 | `SendVote`: a vote sent points at the remote vote event, its voter is resolved to an id or None, and its other fields are kept |
| Export.SendVoteUnresolved | visegrad/api/base.py:199-201 | a vote whose voter_id is not a scheme and identifier dict raises the lookup's error before any query |
| Export.SendVoteReads | visegrad/api/base.py:197-201 | preparing a vote only reads, and keeps the cache sound |
| Export.SendBatchSends | visegrad/api/base.py:196-203 | `SendBatch`: the votes of a created event are all sent, in file order, each pointed and resolved, in exactly one batch; when there are none there is no batch call; nothing is created or replaced |
| Export.FoldVotesPointed | visegrad/api/base.py:197-201 | every vote prepared by the loop is pointed at the remote event and resolved |
| Export.FoldVotesRead | visegrad/api/base.py:197-201 | preparing the votes only reads |
| Export.BatchCallAppended | visegrad/api/base.py:203 | a batch call adds one batch to the votes and writes nothing |
| Export.SendBatchKeeps | visegrad/api/base.py:203 | sending the batch leaves every other collection unchanged |
| Export.VoteEventSends | visegrad/api/base.py:187-203 | `VoteEvent`: a vote event is reconciled once without its local identifier. When it was created, all its votes go out in one batch (none when it has no votes); when it already existed, no vote is sent |
| Export.VoteEventSentOnce | visegrad/api/base.py:195-196 | running the same vote event again sends no vote and creates no second event |
| Export.ReconcileRecordsSends | visegrad/api/base.py:151-152 | `ReconcileRecords`: the records of a file are each read and then written, in file order |
| Export.ReconcileRecordsSound | visegrad/api/base.py:151-152 | reconciling records keeps the cache sound |
| Export.PeoplePhaseSends | visegrad/api/base.py:147-152 | `PeoplePhase`, with the corrected `get_chamber`: `export_people` makes or reuses the chamber and then reconciles every person of the file, in order |
| Export.OrganizationsPhaseSends | visegrad/api/base.py:154-160 | `OrganizationsPhase`, with the corrected `get_chamber`: `export_organizations` reconciles every organization in order, each with parent_id set to the chamber's id |
| Export.MotionsPhaseSends | visegrad/api/base.py:176-182 | `MotionsPhase`, with the corrected `get_chamber`: `export_motions` reconciles every motion in order, each with organization_id set to the chamber's id |
| Export.ResolveChamber | visegrad/api/base.py:166-171 | resolving leaves the memoised chamber alone |
| Export.MembershipStepChamber | visegrad/api/base.py:165-174 | a membership step leaves the memoised chamber alone |
| Export.VoteEventChamber | visegrad/api/base.py:187-203 | a vote event step leaves the memoised chamber alone |
| Export.VoteEventSound | visegrad/api/base.py:187-203 | a vote event step keeps the cache sound |
| Export.SendBatchSound | visegrad/api/base.py:196-203 | sending a batch keeps the cache sound |
| Export.FoldMembershipsSound | visegrad/api/base.py:165-174 | the membership loop keeps the cache sound |
| Export.FoldVoteEventsSound | visegrad/api/base.py:187-203 | the vote event loop keeps the cache sound |
| Export.PhaseSound | visegrad/api/base.py:147-203 | every phase keeps the cached ids and the chamber pointing at stored documents |
| Export.PeoplePhaseSound | visegrad/api/base.py:147-152 | the people phase keeps the cache sound |
| Export.OrganizationsPhaseSound | visegrad/api/base.py:154-160 | the organizations phase keeps the cache sound |
| Export.MotionsPhaseSound | visegrad/api/base.py:176-182 | the motions phase keeps the cache sound |
| Export.RunExportSound | visegrad/api/base.py:54-64 | a whole export keeps the cached ids and the chamber pointing at stored documents |
| Export.LoopPhaseChamber | visegrad/api/base.py:162-203 | the memberships and votes phases leave the memoised chamber alone |
| Export.RunExportOneChamber | visegrad/api/base.py:54-145 | with the corrected `get_chamber`, a whole export makes the chamber once, in the people phase; organizations and motions use that same chamber, and the exporter still holds it at the end |
| ApiExport.PhasesBetween | visegrad/api/base.py:54-64 | the phases from the `i`-th up to the `j`-th are `j - i` phases |
| ApiExport.PhasesBetweenSlice | visegrad/api/base.py:54-64 | those phases are exactly that slice of the fixed phase order |
| ApiExport.VisegradApiExport.constructor | visegrad/api/base.py:33-42 | a new exporter has no chamber, an empty id cache and an empty log, and talks to the given store |
| ApiExport.VisegradApiExport.GetOrCreate | visegrad/api/base.py:78-112 | the store and the answer become what one reconciliation of the item gives; the chamber, the cache and the log are untouched |
| ApiExport.VisegradApiExport.BatchCreate | visegrad/api/base.py:114-115 | the store receives one batch holding every item; nothing else changes |
| ApiExport.VisegradApiExport.GetRemoteId | visegrad/api/base.py:117-137 | the store, cache and answer become what `get_remote_id` gives for the reference; the log is untouched |
| ApiExport.VisegradApiExport.MakeChamber | visegrad/api/parliaments.py:21-164 | the store and answer become what making the configured parliament's chamber gives |
| ApiExport.VisegradApiExport.ReconcileChambers | visegrad/api/parliaments.py:142-146 | the loop over the chamber records reconciles each in order and stops at the first error, exactly as the list of reconciliations does |
| ApiExport.VisegradApiExport.GetChamber | visegrad/api/base.py:142-145 | with the corrected `get_chamber` (the configured chamber index passed): the chamber is made only when none is memoised, and then memoised |
| ApiExport.VisegradApiExport.ReconcileEach | visegrad/api/base.py:147-182 | the loop reconciles every record, with the field set first when one is given, in order, until one raises |
| ApiExport.VisegradApiExport.ExportPeople | visegrad/api/base.py:147-152 | the exporter's state and outcome become those of the people phase |
| ApiExport.VisegradApiExport.ExportOrganizations | visegrad/api/base.py:154-160 | the exporter's state and outcome become those of the organizations phase |
| ApiExport.VisegradApiExport.ExportMotions | visegrad/api/base.py:176-182 | the exporter's state and outcome become those of the motions phase |
| ApiExport.VisegradApiExport.ExportMembership | visegrad/api/base.py:165-174 | one membership: both references are resolved, then it is reconciled |
| ApiExport.VisegradApiExport.ExportMemberships | visegrad/api/base.py:162-174 | `MembershipsPhase`: the exporter's state and outcome become those of the memberships phase |
| ApiExport.VisegradApiExport.PointVote | visegrad/api/base.py:197-201 | one vote is pointed at the event and its voter resolved |
| ApiExport.VisegradApiExport.PointVotes | visegrad/api/base.py:196-202 | the inner loop prepares every vote of the event in order, until one raises |
| ApiExport.VisegradApiExport.ExportVoteEvent | visegrad/api/base.py:187-203 | one vote event is reconciled, and its votes are sent in one batch only when it was created |
| ApiExport.VisegradApiExport.ExportVotes | visegrad/api/base.py:184-203 | `VotesPhase`: the exporter's state and outcome become those of the votes phase |
| ApiExport.VisegradApiExport.LogAndRun | visegrad/api/base.py:54-64 | a phase's message is logged before the phase runs, and the state becomes the phase's result |
| ApiExport.VisegradApiExport.RunPhasesFrom | visegrad/api/base.py:54-64 | the phases from the `i`-th on run in order until one raises, and each one started is logged once |
| ApiExport.VisegradApiExport.RunExport | visegrad/api/base.py:54-64 | `run_export` logs exactly the messages of the phases it started, in order, and leaves the state the phases leave |
| Parliaments.HungarianChambers | visegrad/api/parliaments.py:97-140 | the Hungarian chamber list holds one record per parliamentary term, in the source's order, each with that term's identifier and name |
| Parliaments.ChamberRecords | visegrad/api/parliaments.py:21-164 | every record `make_chamber` reconciles is classified 'chamber' and has a single identifier in its parliament's `<domain>/chamber` scheme; there are seven for the Hungarian parliament and one for the others |
| Parliaments.ClassifiedChamber | visegrad/api/parliaments.py:144-146 | setting `classification` on a listed Hungarian chamber makes it a chamber record |
| Parliaments.FirstAlternative | visegrad/api/parliaments.py:35-40 | an alternation matches at a position with the first of its non-empty alternatives found there, in pattern order, and matches nothing when none is found |
| Parliaments.RemoveAll | visegrad/api/parliaments.py:43-61 | removing every match of an alternation never lengthens the text, never adds a character, and leaves a text holding no match unchanged |
| Parliaments.SpaceRun | visegrad/api/parliaments.py:37 | the run of whitespace a text starts with is exactly its leading whitespace |
| Parliaments.CollapseSpaces | visegrad/api/parliaments.py:37-63 | after the substitution no two whitespace characters are adjacent; the text is no longer, adds no character except a space, does not start with whitespace when the input did not, and is unchanged when it had no double whitespace |
| Parliaments.LowerKeepsSpacing | visegrad/api/parliaments.py:45 | lower-casing keeps a text free of double whitespace |
| Parliaments.NormaliseName | visegrad/api/parliaments.py:42-46 | a remote person's name as the index keys it is normalised: no '-', no double whitespace, no upper-case letter; and it is no longer than the name |
| Parliaments.StripCreator | visegrad/api/parliaments.py:60-63 | a speaker as matched is normalised the same way, and no longer than written |
| Parliaments.NormaliseCreatorAsWritten | visegrad/api/parliaments.py:38-63 | the speaker normalisation with the prefix pattern as compiled yields a normalised name |
| Parliaments.NormaliseCreator | visegrad/api/parliaments.py:38-63 | the speaker normalisation with the intended prefixes yields a normalised name |
| Parliaments.FreeOfFirstChars | visegrad/api/parliaments.py:61 | an alternation cannot match a text holding none of its alternatives' first characters |
| Parliaments.NormalisedPassesThrough | visegrad/api/parliaments.py:60-63 | a speaker already normalised, with no office name in it, matches under its own name |
| Parliaments.PlainWordsNormalised | visegrad/api/parliaments.py:60-63 | lower-case words separated by single spaces are already normalised |
| Parliaments.SecretaryTitleKeptAsWritten | visegrad/api/parliaments.py:38-63 | with the pattern as compiled, "generalni sekretar ana" keeps the title, so the speaker cannot match a person named "ana" |
| Parliaments.SecretaryTitleRemoved | visegrad/api/parliaments.py:38-63 | with the intended prefixes, the same speaker normalises to "ana" |
| Parliaments.StripNormalised | visegrad/api/parliaments.py:60-63 | on a normalised speaker, the normalisation is the prefix removal alone |
| Parliaments.SecretaryPrefixRemoved | visegrad/api/parliaments.py:38-61 | the intended prefixes remove "generalni sekretar " from the secretary line |
| Parliaments.Keyed | visegrad/api/parliaments.py:42-46 | each remote person gives one entry, their normalised name with their id, in listing order |
| Parliaments.LastNamed | visegrad/api/parliaments.py:46 | the position found holds the name, and no later entry does; -1 means no entry does |
| Parliaments.IndexOfLast | visegrad/api/parliaments.py:46 | filling the dict holds exactly the names of the entries, each with the id of the last entry so named |
| Parliaments.PeopleIndexLast | visegrad/api/parliaments.py:42-46 | `PeopleIndex`: a name is in the people index exactly when some person normalises to it, and it maps to the id of the last person who does |
| Parliaments.IndexPeople | visegrad/api/parliaments.py:42-46 | the loop over the remote people builds exactly the people index |
| Parliaments.TextSpeechFields | visegrad/api/parliaments.py:54-65 | `TextSpeech`: a transcript part is numbered from 1, typed 'speech' and carries its parsed text; it gets the speaker's id exactly when the speaker, normalised with the prefix pattern as compiled (`NormaliseCreatorAsWritten`), is in the index, otherwise it keeps the speech's own `creator_id`; every other field of the speech is copied |
| Parliaments.TranscriptRequests | visegrad/api/parliaments.py:54-71 | a transcript gives one request per parsed part, in parse order, each with the where-keys `event_id` and `position` |
| Parliaments.TranscriptRequestsStep | visegrad/api/parliaments.py:54-71 | one more part adds its one request at the end |
| Parliaments.SpeechRequests | visegrad/api/parliaments.py:49-73 | a speech whose local event has no remote id raises; every request a speech gives goes to speeches and carries the remote event id |
| Parliaments.PlainSpeechUnchanged | visegrad/api/parliaments.py:51-73 | a speech whose source is not a PDF is sent once, unchanged apart from its event id, and without where-keys |
| Parliaments.SpeechPlanConcat | visegrad/api/parliaments.py:48-73 | `SpeechPlan`: when no speech raises, the requests sent are each speech's requests in speech order |
| Parliaments.SpeechPlanStep | visegrad/api/parliaments.py:48-73 | one more speech extends the requests by its own, or stops with its error |
| Parliaments.PlanFailureStays | visegrad/api/parliaments.py:48-73 | once a speech has raised, the speeches after it send nothing |
| Parliaments.CopyForPart | visegrad/api/parliaments.py:55-65 | the copy built for a part is the part's speech record as specified, the speaker normalised with the prefix pattern as compiled |
| Parliaments.CutTranscript | visegrad/api/parliaments.py:54-71 | the transcript loop sends exactly the transcript's requests, in order, each part's speaker normalised with the prefix pattern as compiled |
| Parliaments.ExportSpeeches | visegrad/api/parliaments.py:32-73 | `export_speeches` builds the people index, then hands back the requests of each speech in the order they would be sent, stopping at the first speech that raises; speakers are normalised with the prefix pattern as compiled |
| Pipelines.IdentifiersKey | visegrad/pipelines.py:17-24 | a non-list `identifiers` is its own key; an empty list raises IndexError; for a non-empty list the key exists exactly when the first element is a dict with an `identifier`, and it is "scheme/identifier" when the scheme is truthy and the bare identifier otherwise |
| Pipelines.SeenEntry | visegrad/pipelines.py:16-25 | an item has no seen-set entry exactly when it has no `identifiers`; an entry pairs the item's class with a hashable key, and it is the identifiers key whenever that key exists and can be hashed |
| Pipelines.Process | visegrad/pipelines.py:15-30 | a kept item is returned unchanged; the item raises exactly when its entry cannot be computed or hashed; an item without identifiers passes and leaves the set alone; an item with an entry is dropped exactly when the entry was already seen, and the entry is then in the set; a dropped or failing item leaves the set as it was |
| Pipelines.DuplicatesPipeline.constructor | visegrad/pipelines.py:12-13 | a new pipeline has seen nothing |
| Pipelines.DuplicatesPipeline.ProcessItem | visegrad/pipelines.py:15-30 | `process_item` updates `items_seen` and answers exactly as the specification above says |
| Pipelines.SecondIsDropped | visegrad/pipelines.py:25-29 | after an item is kept, a second item of the same class with the same identifiers key is dropped |
| Pipelines.ClassesSeparate | visegrad/pipelines.py:25-29 | an item of another class with an equal key is kept when its own class has not seen that key |
| Pipelines.ProcessAll | visegrad/pipelines.py:15-30 | a stream of items gets one verdict per item, and the seen set only grows |
| Pipelines.KeptAreDistinct | visegrad/pipelines.py:15-30 | over a whole scrape, the kept items with identifiers have pairwise distinct (class, key) entries, none seen before and all in the final set |
| Pipelines.Separated | visegrad/pipelines.py:43 | a directory gets at most one '/' added, so that it ends with one |
| Pipelines.PathJoin | visegrad/pipelines.py:43 | `os.path.join` keeps an absolute second part alone, and otherwise puts it after the first part and a separator |
| Pipelines.JoinFile | visegrad/pipelines.py:42-43 | a "<name>.json" file joined to a non-empty directory ends with "/<name>.json" |
| Pipelines.FilenameOfClass | visegrad/pipelines.py:40-43 | `GetFilename`: the file of an item is the output path joined with the spider's name, then "<item class name>.json" |
| Pipelines.FilenamesSeparateClasses | visegrad/pipelines.py:40-43 | items of different classes are written to different files |
| Pipelines.SourceClass | visegrad/api/base.py:18-31 | each file the exporter reads is the file the pipeline writes for one item class |
| Loaders.FindKey | visegrad/loaders.py:11-13 | the key found is the first the stripped, lower-cased phrase equals once lower-cased; none is found exactly when no key matches |
| Loaders.Translate | visegrad/loaders.py:10-15 | a phrase that matches a key translates to the value of a matching key; a phrase matching none comes back as it is, or as None under `allow_empty` |
| Loaders.TranslateKey | visegrad/loaders.py:10-13 | with keys distinct up to case, a phrase matching a key up to case and surrounding whitespace translates to that key's value, whatever order the dict yields its keys in |
| Loaders.KeysTranslate | visegrad/loaders.py:10-13 | keys without surrounding whitespace and distinct up to case all translate to their own values |
| Loaders.LowerKeeps | visegrad/loaders.py:12 | a string with no capital is its own lower-case form |
| Loaders.DistinctLoweredKeys | visegrad/loaders.py:12 | keys whose lower-case forms differ are distinct up to case |
| Loaders.MojePanstwoVoteKeysUnpadded | visegrad/loaders.py:209-217 | the Polish vote option keys have no surrounding whitespace |
| Loaders.MojePanstwoVoteKeys | visegrad/loaders.py:209-217 | the Polish vote option keys are distinct up to case |
| Loaders.MojePanstwoVoteValues | visegrad/loaders.py:209-217 | no two Polish vote options share a value |
| Loaders.MojePanstwoVoteOptionsOneToOne | visegrad/loaders.py:209-217 | '1' to '4' translate to yes, no, abstain and absent, one to one |
| Loaders.ParlamentHuVoteKeysUnpadded | visegrad/loaders.py:195-205 | the Hungarian vote option keys have no surrounding whitespace |
| Loaders.ParlamentHuVoteKeys | visegrad/loaders.py:195-205 | the Hungarian vote option keys are distinct up to case |
| Loaders.ParlamentHuVoteValues | visegrad/loaders.py:195-205 | no two Hungarian vote options share a value |
| Loaders.ParlamentHuVoteOptionsOneToOne | visegrad/loaders.py:195-205 | every Hungarian vote option key translates to its own option, one to one |
| Loaders.TranslateUnknown | visegrad/loaders.py:14-15 | a phrase matching none of the keys is passed through, or dropped under `allow_empty` |
| Loaders.LowerFirst | visegrad/loaders.py:12 | a word with an ASCII capital in front lower-cases to the word with that letter in lower case |
| Loaders.SkupstinaMeResultDropsUnknown | visegrad/loaders.py:163-169 | a Montenegrin motion result other than the two known ones becomes None, not the phrase |
| Loaders.SkupstinaMeResultKeys | visegrad/loaders.py:163-169 | the Montenegrin result keys are "usvojen" and "nije usvojen", already in lower case |
| Loaders.StripText | visegrad/loaders.py:18-21 | a cleaned string holds no no-break space and neither starts nor ends with whitespace |
| Loaders.StripAvoids | visegrad/loaders.py:20 | `strip` adds no character |
| Loaders.StripTextIdempotent | visegrad/loaders.py:18-21 | cleaning a cleaned string changes nothing |
| Loaders.StripValue | visegrad/loaders.py:18-21 | strings are cleaned and any other value is returned as it is |
| Loaders.Checked | visegrad/loaders.py:24-63 | `datetime` accepts exactly the real calendar days of years 1 to 9999 and the times of day, and keeps them |
| Loaders.MidnightString | visegrad/loaders.py:25 | midnight prints as "00:00:00" |
| Loaders.NumberAtPadded | visegrad/loaders.py:24-63 | a fixed-width number read from digits prints back as those digits |
| Loaders.IsoOfDateShape | visegrad/loaders.py:32-56 | the ISO date of a date read from "YYYY?MM?DD" is the same digits with '-' between |
| Loaders.IsoOfDateTimeShape | visegrad/loaders.py:39-63 | the ISO date and time of "YYYY?MM?DD?HH:MM:SS" keeps the time digits as they were |
| Loaders.MeToIsoRearranges | visegrad/loaders.py:24 | `MeToIso`: a Montenegrin date that converts was ten characters once cleaned, and its ISO form is its year, month and day digits moved into place |
| Loaders.MeToIsoRoundTrip | visegrad/loaders.py:24 | every valid day written "DD.MM.YYYY" converts to its own ISO date |
| Loaders.StripTextKeeps | visegrad/loaders.py:20 | a string of digits and dots that starts and ends with a digit is already clean |
| Loaders.ParseDayMonthYear | visegrad/loaders.py:24-25 | `strptime(s, '%d.%m.%Y')` that succeeds gives a date and time at midnight, the format having no time fields |
| Loaders.MeToIsoDateTimeAtMidnight | visegrad/loaders.py:24-25 | `MeToIsoDateTime`: `me_to_iso_datetime` fails exactly when `me_to_iso` does, and otherwise gives its date at " 00:00:00" |
| Loaders.HuToIsoRearranges | visegrad/loaders.py:28-32 | `HuToIso`: a Hungarian date that converts is either empty after cleaning (and stays empty) or ten characters whose separators become '-' |
| Loaders.HuToIsoDateTimeRearranges | visegrad/loaders.py:35-39 | `HuToIsoDateTime`: a non-empty Hungarian date and time that converts is nineteen characters whose date separators become '-' and whose last '.' becomes a space |
| Loaders.PlToIsoIsDatePart | visegrad/loaders.py:42-63 | `PlToIso` and `PlToIsoDateTime`: only the placeholder "0000-00-00" gives None; the date and the date-and-time conversions fail together; the ISO date is the first ten characters of the ISO date and time |
| Loaders.PlToIsoDateTimeKeeps | visegrad/loaders.py:46-63 | a Polish date and time that converts is already in ISO form and comes back unchanged |
| Loaders.PlToIsoDateFallback | visegrad/loaders.py:47-63 | a bare Polish date is accepted through the fallback, at midnight, and its ISO date is itself |
| Utils.ParseIdentifier | visegrad/utils.py:1-5 | the record holds the value as `identifier`, and a `scheme` exactly when the loader context has one, equal to it; nothing else |
| Utils.ParseOtherNames | visegrad/utils.py:8-9 | the record holds only `name`, the value |
| Utils.MakeList | visegrad/utils.py:12-16 | the result is a list: a list stays as it is, anything else becomes the one-element list of it |
| Utils.MakeListIdempotent | visegrad/utils.py:12-16 | applying the processor twice is applying it once |
| Serializers.IdentifiersSerializer.Serialize | visegrad/serializers.py:1-6 | a value becomes a one-element list holding a dict with exactly `identifier`, the value, and `scheme`, the serializer's scheme |
| Serializers.SerializedShareScheme | visegrad/serializers.py:2-6 | everything one serializer writes carries the same scheme |
| Items.ClassName | visegrad/pipelines.py:42 | every item class name is non-empty and holds no '/' |
| Items.ClassNameInjective | visegrad/items.py:29-195 | no two item classes share a name |
| Items.GetFullUrl | visegrad/items.py:21-26 | an http or https URL is kept as it is; any other is joined to the loader's `response_url`, and raises KeyError when the loader has none |
| Items.ApplyInput | visegrad/items.py:32-166 | `MapCompose` gives one output per value, each the processor applied to that value |
| Items.TakeFirst | visegrad/items.py:29-195 | the output is the first value that is neither None nor the empty string, and there is none exactly when every value is one of those |
| Items.IdentityInput | visegrad/items.py:29-195 | a field without an input processor keeps its values as added |
| Items.LoadSingle | visegrad/items.py:29-195 | a field given one value holds that value through its input processor, then as a list or as itself, as the field declares |
| Items.LoadItem | visegrad/items.py:29-195 | a loaded item sets no field beyond those it had and those added to, and keeps every field nothing was added to |
| Items.LoadItemStep | visegrad/items.py:29-195 | loading a field and then the rest is loading the rest into the item with that field set |
| Items.LoadTwo | visegrad/items.py:29-195 | two fields loaded one after the other are both set, the second only when it has a value |
| Items.UrlRecords | visegrad/items.py:56-60 | each value becomes `{'url': value}`, in order |
| Items.UrlFieldsAreLists | visegrad/items.py:55-194 | every `sources` field, and a person's `links`, is the list of `{'url': x}` records of the values added |
| Items.UrlRecordsApplied | visegrad/items.py:56-60 | the URL-record input processor turns each value into `{'url': value}` |
| Items.IdentifierRecords | visegrad/items.py:36-77 | each value becomes its `parse_identifier` record, in order |
| Items.IdentifierRecordsApplied | visegrad/items.py:36-77 | the `parse_identifier` input processor applies it to each value |
| Items.IdentifiersAreLists | visegrad/items.py:35-79 | person and organization identifiers are always the list of the values' `parse_identifier` records |
| Items.ReferencesParsed | visegrad/items.py:157-167 | a vote's `voter_id` and a speech's `creator_id` are unset when nothing was added, and otherwise the `parse_identifier` record of the first value added |
| Items.CountsAreList | visegrad/items.py:143 | a vote event's counts are always a list, with one entry per count added |
| Items.LoaderDefaultApplies | visegrad/items.py:29-195 | the loader's default input processor never fails |
| Items.SerializeField | visegrad/items.py:65-67 | a Montenegrin person's identifiers are written as one `{'identifier', 'scheme': 'skupstina.me/people'}` record of the value; every other field is written as it is |
| Urls.HexRoundTrip | visegrad/spiders/parlament_hu.py:80 | a hex digit written and read back is the same number |
| Urls.QuoteChar | visegrad/spiders/parlament_hu.py:80 | an escaped character never holds a query separator, '=' or '#' |
| Urls.QuotePlus | visegrad/spiders/parlament_hu.py:80 | a quoted string holds no '&', '=', ';' or '#', and a string of unreserved characters is its own quoting |
| Urls.UnquoteQuote | visegrad/spiders/parlament_hu.py:24-80 | `UnquotePlus`: decoding what `quote_plus` wrote gives the string back |
| Urls.EncodePair | visegrad/spiders/parlament_hu.py:80 | an encoded `name=value` pair holds no '&', ';' or '#' |
| Urls.EncodePairs | visegrad/spiders/parlament_hu.py:80 | each pair is encoded on its own, in order |
| Urls.DecodePiece | visegrad/spiders/parlament_hu.py:24-129 | a query piece decodes to at most one pair |
| Urls.QueryValue | visegrad/spiders/skupstina_me.py:18-20 | `parse_qs(qs)[name]` has a value exactly when some parsed pair carries that name |
| Urls.FirstValue | visegrad/spiders/skupstina_me.py:19-20 | the value answered is that of the first pair with the name, and there is one exactly when some pair has the name |
| Urls.FirstIndex | visegrad/spiders/parlament_hu.py:23 | the position found holds the first occurrence of the character |
| Urls.SplitJoin | visegrad/spiders/parlament_hu.py:24-80 | splitting a join of separator-free pieces gives the pieces back |
| Urls.LastSeparator | visegrad/spiders/skupstina_me.py:21-24 | the last separator of `head + c + last` sits right after `head` when `last` has none |
| Urls.DecodeEncodedPair | visegrad/spiders/parlament_hu.py:24-80 | one encoded pair with a non-empty value parses back to itself |
| Urls.DecodeEncodedPairs | visegrad/spiders/parlament_hu.py:24-80 | encoded pieces with non-empty values decode back to their pairs, in order |
| Urls.ParseEncoded | visegrad/spiders/parlament_hu.py:24-80 | `ParseQsl`: a query built by `urlencode` parses back to its pairs, in order, when no value is empty |
| Urls.JoinFree | visegrad/spiders/parlament_hu.py:80 | a join of pieces and separators that all avoid a character avoids it |
| Urls.SchemeLength | visegrad/spiders/parlament_hu.py:23-28 | the scheme run is the longest prefix of scheme characters |
| Urls.AuthorityLength | visegrad/spiders/parlament_hu.py:23-29 | the authority runs up to the first '/', '?' or '#' |
| Urls.Origin | visegrad/items.py:26 | `scheme://netloc` is a prefix of the URL |
| Urls.BeforeQuery | visegrad/items.py:26 | the URL without its query and fragment is a prefix holding neither '?' nor '#' |
| Urls.BeforeFragment | visegrad/items.py:26 | the URL without its fragment is a prefix holding no '#' |
| Urls.PathOf | visegrad/spiders/parlament_hu.py:23-30 | a URL's path holds no '?' or '#' |
| Urls.Directory | visegrad/items.py:26 | the directory a relative reference is appended to keeps the base's origin |
| Urls.UrlJoin | visegrad/items.py:26 | `urljoin` ends with the reference; an absolute reference, or any reference to an empty base, is the result; a reference naming another scheme than the base's, or under a base scheme outside `uses_relative`, is returned unchanged; an empty reference gives the base |
| Urls.SplitScheme | visegrad/items.py:26 | the scheme `urlsplit` finds is the lower-cased text before a ':' that ends the scheme run; none is found otherwise |
| Urls.NoSchemeJoined | visegrad/spiders/skupstina_me.py:166-167 | a reference without ':' joined to a base whose scheme is resolved against is not kept as it is, and a plain relative path replaces the base's last path segment |
| Urls.OtherSchemeKept | visegrad/spiders/skupstina_me.py:166-167 | a reference under another scheme, such as "mailto:x@y.me" against an http base, is returned unchanged |
| Urls.QueryOf | visegrad/spiders/parlament_hu.py:24-91 | a URL's query holds no '#' |
| Urls.QueryAfter | visegrad/spiders/parlament_hu.py:24 | the query of `prefix?q` is `q` when the prefix has no '?' and `q` no '#' |
| Urls.BeforeFragmentKeeps | visegrad/items.py:26 | a URL without '#' has no fragment to cut |
| Urls.UrlEncodeNoFragment | visegrad/spiders/parlament_hu.py:80 | an encoded query holds no '#' |
| Urls.UrlEncodeStarts | visegrad/spiders/parlament_hu.py:80 | `UrlEncode`: an encoded query starts with its first pair |
| Urls.JoinStarts | visegrad/spiders/parlament_hu.py:80 | a join starts with its first piece |
| Urls.Scheme | visegrad/spiders/parlament_hu.py:23-28 | a URL without `scheme://` has an empty scheme |
| Urls.Hostname | visegrad/spiders/parlament_hu.py:23-29 | a URL with an empty netloc has no hostname, and a hostname holds no capital |
| Urls.QueryOfEncoded | visegrad/spiders/parlament_hu.py:24-81 | a URL made of a plain head, '?' and an encoded query with non-empty values parses back to the pairs |
| Text.DigitRun | visegrad/spiders/skupstina_me.py:21-24 | the leading run of digits is the longest prefix of digits |
| Text.DigitRunLength | visegrad/spiders/skupstina_me.py:21-24 | a run of `m` digits followed by a non-digit has length `m` |
| Text.LowerChar | visegrad/loaders.py:12 | a capital letter maps to a letter with no capital left, ASCII capitals 32 code points down; any other character stays |
| Text.Lower | visegrad/loaders.py:12 | `lower()` keeps the length and lower-cases character by character |
| Text.LowerIdempotent | visegrad/loaders.py:12 | lower-casing twice is lower-casing once |
| Text.ReplaceChar | visegrad/loaders.py:20 | `replace` of one character swaps exactly its occurrences and keeps the length |
| Text.LStrip | visegrad/loaders.py:20 | `lstrip()` removes exactly the leading whitespace |
| Text.RStrip | visegrad/loaders.py:20 | `rstrip()` removes exactly the trailing whitespace |
| Text.Strip | visegrad/loaders.py:12-20 | `strip()` answers a text that neither starts nor ends with whitespace, leaves such a text unchanged, and empties an all-whitespace text |
| Text.RStripChar | visegrad/loaders.py:29 | `rstrip(c)` removes exactly the trailing run of `c` |
| Text.LStripChar | visegrad/api/base.py:75 | `lstrip(c)` removes exactly the leading run of `c` |
| Text.DigitChar | visegrad/loaders.py:187 | a digit value prints as a digit |
| Text.DigitValue | visegrad/loaders.py:187 | a digit reads as its value, which prints back as the digit |
| Text.NatToStringValue | visegrad/api/base.py:103 | the digits written for a number read back as that number (the model's new ids are written this way) |
| Text.NatToStringInjective | visegrad/api/base.py:103 | different numbers are written differently, so new ids never repeat |
| Text.NatToString | visegrad/spiders/mojepanstwo_pl.py:238-241 | `str(n)` is digits with no leading zero |
| Text.Padded | visegrad/loaders.py:24-63 | a zero-padded number has exactly the width asked for, all digits |
| Text.PaddedDigitsValue | visegrad/loaders.py:24-63 | reading a zero-padded field and writing it back gives the same digits |
| Text.DigitsValuePadded | visegrad/loaders.py:24-63 | a number below 10 to the width survives writing and reading |
| Text.DigitsValueBound | visegrad/loaders.py:24-63 | `k` digits read as a number below 10 to the `k` |
| Text.LastIndex | visegrad/spiders/skupstina_me.py:21-24 | the position found holds the character, and no later position does |
| Text.SplitChar | visegrad/api/base.py:122 | `split(c)` gives at least one piece, no piece holds `c`, and the pieces joined with `c` give the text back |
| Text.SplitCharOnce | visegrad/api/base.py:122 | a text with exactly one `c` splits into the two pieces around it |
| ParlamentHuSpider.LoopWindowsShape | visegrad/spiders/parlament_hu.py:215-219 | `LoopWindows`: the `while` loop emits 60-day windows that all start after VOTES_START_DATE, each ending the day before the previous one starts; the first is the window it was given, and the `end` it leaves is the day before the last window's start, at most 60 days after VOTES_START_DATE |
| ParlamentHuSpider.FirstWindow | visegrad/spiders/parlament_hu.py:208-217 | when 60 days ago is after VOTES_START_DATE, the first window runs from 60 days ago to today |
| ParlamentHuSpider.WindowsShape | visegrad/spiders/parlament_hu.py:207-224 | `VoteWindows`, the corrected windows with the final single-day window also sent: the windows run back from today to VOTES_START_DATE without gaps: the first ends today, the last starts on VOTES_START_DATE, and all before the last span 60 days |
| ParlamentHuSpider.ContiguousCovers | visegrad/spiders/parlament_hu.py:215-224 | contiguous windows ask for every day from the last window's start to the first window's end |
| ParlamentHuSpider.ContiguousDisjoint | visegrad/spiders/parlament_hu.py:215-224 | contiguous windows go back in time and never overlap |
| ParlamentHuSpider.WindowsPartition | visegrad/spiders/parlament_hu.py:207-224 | for the corrected windows, which also send the final window when it is the single day VOTES_START_DATE, every day from VOTES_START_DATE to today is asked for by exactly one window, and no other day is |
| ParlamentHuSpider.ContiguousPartition | visegrad/spiders/parlament_hu.py:215-224 | contiguous windows from `lo` to `hi` ask for every day of that range exactly once, and for no day outside it |
| ParlamentHuSpider.WindowsAsWritten | visegrad/spiders/parlament_hu.py:207-224 | the windows as written run back from today without gaps or overlaps and ask for no day outside VOTES_START_DATE..today; every day after VOTES_START_DATE is asked for, and VOTES_START_DATE itself exactly when the loop leaves an end after it |
| ParlamentHuSpider.SkippedStartDay | visegrad/spiders/parlament_hu.py:221-224 | as written, 61 days after VOTES_START_DATE the only window starts the day after it, and VOTES_START_DATE itself is never asked for |
| ParlamentHuSpider.GetVotesRequests | visegrad/spiders/parlament_hu.py:207-224 | the loop yields exactly the windows as written (`VoteWindowsAsWritten`), the last one only when `start < end`, in order |
| ParlamentHuSpider.UpdateOne | visegrad/spiders/parlament_hu.py:75 | `dict.update` with one pair keeps every name already there, in place, and adds only that pair's value |
| ParlamentHuSpider.Update | visegrad/spiders/parlament_hu.py:75 | updating with the parameters keeps every name already there, and every value comes from the query or the parameters |
| ParlamentHuSpider.TokenNamePlain | visegrad/spiders/parlament_hu.py:73-80 | "access_token" is written as it is by `urlencode` |
| ParlamentHuSpider.ApiQuery | visegrad/spiders/parlament_hu.py:73-75 | the API query starts with the access token, and every other pair comes from the parameters |
| ParlamentHuSpider.ApiQueryBytes | visegrad/spiders/parlament_hu.py:73-75 | a byte-string token and byte-string parameters give a byte-string query |
| ParlamentHuSpider.EndpointUrlPlain | visegrad/spiders/parlament_hu.py:77-79 | the endpoint URL holds no '?' when the endpoint does not |
| ParlamentHuSpider.EncodedStartsWithName | visegrad/spiders/parlament_hu.py:77-81 | an encoded query whose first name needs no quoting starts with that name and '=' |
| ParlamentHuSpider.ApiUrlCarriesToken | visegrad/spiders/parlament_hu.py:72-81 | `GetApiUrl`: every API URL is the endpoint's `.cgi` URL, '?', then `access_token=` |
| ParlamentHuSpider.ApiUrlQuery | visegrad/spiders/parlament_hu.py:72-81 | the query of an API URL parses back to the access token followed by the parameters, when no value is empty |
| ParlamentHuSpider.MatchAt | visegrad/spiders/parlament_hu.py:47 | the pattern matches at a position exactly when the literal prefix is there followed by a word character and a digit; the group is that character and the whole digit run after it |
| ParlamentHuSpider.Search | visegrad/spiders/parlament_hu.py:62 | `re.search` answers the group of the leftmost match, and nothing only when no position matches |
| ParlamentHuSpider.PersonQueryBytes | visegrad/spiders/parlament_hu.py:65 | a matched `p_azon` makes a byte-string query |
| ParlamentHuSpider.GetUrl | visegrad/spiders/parlament_hu.py:60-67 | a URL that is not a member link is returned unchanged |
| ParlamentHuSpider.PersonLinkQuery | visegrad/spiders/parlament_hu.py:60-81 | a member link becomes an API URL whose query is the access token followed by the matched `p_azon` |
| ParlamentHuSpider.PersonApiQuery | visegrad/spiders/parlament_hu.py:64-81 | `PersonApiUrl`: the member API URL's query is the access token and the member's `p_azon` |
| ParlamentHuSpider.ApiQueryOne | visegrad/spiders/parlament_hu.py:73-75 | one parameter with another name than the token's comes after the token |
| ParlamentHuSpider.PersonNames | visegrad/spiders/parlament_hu.py:38-47 | the member endpoint holds no '?', and `p_azon` is not the token's name |
| ParlamentHuSpider.FirstEnding | visegrad/spiders/parlament_hu.py:25 | the name found is the first ending with the suffix, and none is found exactly when no name ends with it |
| ParlamentHuSpider.GetActionUrl | visegrad/spiders/parlament_hu.py:22-31 | there is no action URL exactly when no query name ends in "pairAction"; an action URL starts with the link's scheme, "://" and hostname |
| ParlamentHuSpider.ActionUrlOfQuery | visegrad/spiders/parlament_hu.py:22-31 | for a link whose query was built by `urlencode`, the action URL is scheme, "://", hostname, then the value of the first pair named "...pairAction" |
| ParlamentHuSpider.GetParty | visegrad/spiders/parlament_hu.py:293-295 | an independent ("független" up to whitespace and case) has no party |
| ParlamentHuSpider.PartyName | visegrad/spiders/parlament_hu.py:300 | the party's name is the short name as the loader's default input processor strips it |
| ParlamentHuSpider.PartyIdentifiers | visegrad/spiders/parlament_hu.py:297-301 | the party's one identifier is the short name under the 'parlament.hu/parties' scheme |
| ParlamentHuSpider.PartyOtherNames | visegrad/spiders/parlament_hu.py:302-303 | the long name becomes the party's one alternative name |
| ParlamentHuSpider.FourFieldsShape | visegrad/spiders/parlament_hu.py:297-304 | a record of four distinct fields, two optional, holds exactly the fields given |
| ParlamentHuSpider.PartyLoaded | visegrad/spiders/parlament_hu.py:297-304 | loading any other short name gives the party item field by field |
| ParlamentHuSpider.PartyItemShape | visegrad/spiders/parlament_hu.py:297-304 | `PartyItem`: the party item is classified 'party', is named by the cleaned short name when that is non-empty, has the one party identifier, and has other names exactly when a long name is given |
| ParlamentHuSpider.PartyRecord | visegrad/spiders/parlament_hu.py:293-304 | any short name other than an independent's gives a party with exactly those fields |
| MojePanstwoSpider.ApiBase | visegrad/spiders/mojepanstwo_pl.py:20-234 | the API root without its trailing '/' is "http://api.mojepanstwo.pl" |
| MojePanstwoSpider.ApiPath | visegrad/spiders/mojepanstwo_pl.py:235-238 | the path used is the argument's path part, with a '/' put in front when it has none; it holds no '?' or '#' |
| MojePanstwoSpider.BeforeQueryKeeps | visegrad/spiders/mojepanstwo_pl.py:235-236 | a path without '?' or '#' has no query or fragment to cut |
| MojePanstwoSpider.ApiUrlOfPath | visegrad/spiders/mojepanstwo_pl.py:233-242 | a plain absolute path is appended to the API root as it is |
| MojePanstwoSpider.ApiUrlOfRelativePath | visegrad/spiders/mojepanstwo_pl.py:233-242 | a relative path such as a data object's `_id` gets its leading '/' |
| MojePanstwoSpider.ApiUrlQuery | visegrad/spiders/mojepanstwo_pl.py:240-241 | `GetApiUrl`: the URL has a query exactly when there are parameters, and the query parses back to them when no value is empty |
| MojePanstwoSpider.PageParamsBytes | visegrad/spiders/mojepanstwo_pl.py:21-61 | the page and limit parameters are byte strings |
| MojePanstwoSpider.StartRequests | visegrad/spiders/mojepanstwo_pl.py:23-41 | `start_requests` asks for the first page of people, committees and vote events, in that order, each with `limit=100` and parsed by the listing's callback |
| MojePanstwoSpider.CommiteePagesAsWritten | visegrad/spiders/mojepanstwo_pl.py:143-153 | `NextPageAsWritten`: as written, the second page of committees is parsed by `parse_people`, not `parse_commitees` |
| MojePanstwoSpider.NextPageRule | visegrad/spiders/mojepanstwo_pl.py:54-176 | `NextPage`: a next page is asked for exactly when `to < total`; it is the page after the one in the meta (page 1 when there is none), of the same listing, with `page` and `limit=100` in its query, and parsed by the listing's own callback |
| MojePanstwoSpider.Gender | visegrad/spiders/mojepanstwo_pl.py:86-90 | 'M' is male, 'K' is female, and any other value has no gender |
| MojePanstwoSpider.GenderField | visegrad/spiders/mojepanstwo_pl.py:91-92 | a gender word added to the loader becomes the person's gender, stripped, unless that leaves nothing |
| MojePanstwoSpider.GenderProcessed | visegrad/spiders/mojepanstwo_pl.py:91-92 | the gender goes through the loader's strip and then TakeFirst |
| MojePanstwoSpider.GenderLoaded | visegrad/spiders/mojepanstwo_pl.py:86-93 | a person gets 'male' for 'M' and 'female' for 'K'; any other value leaves the gender as it was |
| MojePanstwoSpider.GenderWordsPlain | visegrad/spiders/mojepanstwo_pl.py:88-89 | "male" and "female" are unchanged by the loader's strip |
| MojePanstwoSpider.PlainWord | visegrad/spiders/mojepanstwo_pl.py:88-89 | a non-empty lower-case ASCII word is unchanged by the loader's strip |
| MojePanstwoSpider.Counts | visegrad/spiders/mojepanstwo_pl.py:200-208 | the counts exist exactly when the vote event has all four keys, and then there is one Count per key, its option with that key's value |
| MojePanstwoSpider.CountsField | visegrad/spiders/mojepanstwo_pl.py:200-209 | a vote event's counts field is the list yes, no, abstain and absent, taken from 'z', 'p', 'w' and 'n' |
| MojePanstwoSpider.VoteOptionCodes | visegrad/spiders/mojepanstwo_pl.py:224 | `VoteOption`: each option code '1' to '4' becomes its vote option |
| MojePanstwoSpider.VoteFieldNames | visegrad/spiders/mojepanstwo_pl.py:216-224 | the three fields a vote is given are distinct |
| MojePanstwoSpider.EventIdProcessed | visegrad/spiders/mojepanstwo_pl.py:216 | the vote event's identifier is taken as it is |
| MojePanstwoSpider.VoterAndOptionProcessed | visegrad/spiders/mojepanstwo_pl.py:217-224 | the voter goes through `parse_identifier`, the option is taken as it is |
| MojePanstwoSpider.VoteLoaded | visegrad/spiders/mojepanstwo_pl.py:214-225 | a loaded vote always has its voter's `parse_identifier` record, and points at the event's identifier when that is neither None nor empty |
| MojePanstwoSpider.VoterAndOptionLoaded | visegrad/spiders/mojepanstwo_pl.py:217-225 | the voter and then the option are set on the item, the option only when it is non-empty |
| MojePanstwoSpider.VoterWrappedTwice | visegrad/spiders/mojepanstwo_pl.py:217-223 | `VoteAsWritten`: as written, every vote's voter is `{'identifier': {'scheme': ..., 'identifier': ...}}`, and the exporter fails on it with KeyError('scheme') |
| MojePanstwoSpider.VoterNotResolved | visegrad/api/base.py:199-201 | a voter wrapped under `identifier` alone gives the exporter no scheme to read |
| MojePanstwoSpider.VoteRefersToVoter | visegrad/spiders/mojepanstwo_pl.py:214-225 | `VoteOf`: with the members' scheme given to the loader and the bare person id added, a vote's voter is the person under 'mojepanstwo.pl/poslowie', and the exporter resolves it |
| SkupstinaMeSpider.BeforeFinalNewline | visegrad/spiders/skupstina_me.py:21 | `$` lets a match end at the end of the text or just before one final newline |
| SkupstinaMeSpider.IdAt | visegrad/spiders/skupstina_me.py:21 | a match of the id pattern starts at a '/', and its group is a non-empty run of digits |
| SkupstinaMeSpider.SearchId | visegrad/spiders/skupstina_me.py:22 | `regex.search` answers the group of a match at some position, and nothing only when no position matches |
| SkupstinaMeSpider.OnlyLastSlashMatches | visegrad/spiders/skupstina_me.py:21 | the pattern is anchored at the end, so once a position matches no later one does |
| SkupstinaMeSpider.GetPersonIdAsWritten | visegrad/spiders/skupstina_me.py:17-24 | as written, an 'id' value parsed from the whole link is answered first |
| SkupstinaMeSpider.GetPersonId | visegrad/spiders/skupstina_me.py:17-24 | an 'id' query parameter wins; otherwise there is an id exactly when the pattern matches somewhere, and it is that match's non-empty run of digits |
| SkupstinaMeSpider.NoPairsWithoutEquals | visegrad/spiders/skupstina_me.py:18 | query pieces without '=' give no parameter |
| SkupstinaMeSpider.OnePiece | visegrad/spiders/skupstina_me.py:18 | a query with no separator is one piece |
| SkupstinaMeSpider.EmptyQuery | visegrad/spiders/skupstina_me.py:18 | an empty query has no parameter |
| SkupstinaMeSpider.UnquotePlain | visegrad/spiders/skupstina_me.py:18 | text without '%' and '+' decodes to itself |
| SkupstinaMeSpider.EqualsAfterName | visegrad/spiders/skupstina_me.py:18 | the first '=' of `name=value` is the one after the name |
| SkupstinaMeSpider.OnePieceQuery | visegrad/spiders/skupstina_me.py:18 | a query of one `name=value` piece is that one pair, decoded |
| SkupstinaMeSpider.IdOfSegment | visegrad/spiders/skupstina_me.py:21-24 | a last segment `/<digits><name>` matches with the digits as its group |
| SkupstinaMeSpider.OtherPositionsMiss | visegrad/spiders/skupstina_me.py:21-22 | where one position matches, no other does |
| SkupstinaMeSpider.SearchFinds | visegrad/spiders/skupstina_me.py:22-24 | a match anywhere is the one the search finds |
| SkupstinaMeSpider.PersonIdOfLink | visegrad/spiders/skupstina_me.py:17-24 | a member link `<prefix>/<digits><name>` without a query gives the digits |
| SkupstinaMeSpider.PersonIdOfQuery | visegrad/spiders/skupstina_me.py:17-20 | a link whose encoded query starts with `id` gives that id |
| SkupstinaMeSpider.WholeLinkQuery | visegrad/spiders/skupstina_me.py:18 | parsing a whole link `<head>?id=<v>` as a query gives no 'id': its first parameter is named `<head>?id` |
| SkupstinaMeSpider.QueryPartValue | visegrad/spiders/skupstina_me.py:18-20 | the query part of `<head>?<name>=<v>` gives the decoded value for the name |
| SkupstinaMeSpider.OnePairValue | visegrad/spiders/skupstina_me.py:18-20 | the query `name=value` gives the decoded value for the name |
| SkupstinaMeSpider.NoSlashNoId | visegrad/spiders/skupstina_me.py:21-24 | a text without '/' gives no id from the pattern |
| SkupstinaMeSpider.QueryIdMissedAsWritten | visegrad/spiders/skupstina_me.py:17-24 | as written, a link such as `index.php?id=42` gives no id |
| SkupstinaMeSpider.IdIsPlain | visegrad/spiders/skupstina_me.py:19 | 'id' holds none of the characters a query treats specially |
| SkupstinaMeSpider.QueryIdFound | visegrad/spiders/skupstina_me.py:17-20 | read through its query part, a link `<head>?id=<v>` gives the decoded id |
| SkupstinaMeSpider.LabelRun | visegrad/spiders/skupstina_me.py:173 | the label run is the longest prefix of Unicode word characters (`\w` under `re.UNICODE`) and spaces |
| SkupstinaMeSpider.LabelRunLength | visegrad/spiders/skupstina_me.py:173 | a run of `m` label characters followed by another character has length `m` |
| SkupstinaMeSpider.LabelText | visegrad/spiders/skupstina_me.py:173 | the joined `findall` groups hold only Unicode word characters and spaces |
| SkupstinaMeSpider.NoColonNoLabel | visegrad/spiders/skupstina_me.py:173 | a text with no colon has an empty label |
| SkupstinaMeSpider.LabelOf | visegrad/spiders/skupstina_me.py:173 | a label followed by a colon is read back |
| SkupstinaMeSpider.InfoKey | visegrad/spiders/skupstina_me.py:173 | an info cell without a colon sets no key |
| SkupstinaMeSpider.KeyOfLabel | visegrad/spiders/skupstina_me.py:173 | an info row labelled `<w>:`, `w` of Unicode word characters and spaces, sets the key `w` in lower case |
| SkupstinaMeSpider.AccentedLabelKey | visegrad/spiders/skupstina_me.py:172-176 | a label holding a Montenegrin letter is read whole: "Predlagač:" sets the key "predlagač", its 'č' kept, and with no value after it the row makes the loop fail |
| SkupstinaMeSpider.KeyedWithoutValue | visegrad/spiders/skupstina_me.py:172-175 | an info row with a key but only one text makes the loop fail on `info[1]` |
| SkupstinaMeSpider.KnownLabels | visegrad/spiders/skupstina_me.py:180-183 | the labels 'Status' and 'Datum' give the keys the loader copies |
| SkupstinaMeSpider.SourceUrl | visegrad/spiders/skupstina_me.py:166-167 | a motion's source URL is its header link joined to the site root, and ends with that link |
| SkupstinaMeSpider.HeaderRecord | visegrad/spiders/skupstina_me.py:166-171 | a header row starts a record holding exactly `name` and `sources` |
| SkupstinaMeSpider.GroupFrom | visegrad/spiders/skupstina_me.py:159-178 | the grouping loop only fails with IndexError |
| SkupstinaMeSpider.GroupMotions | visegrad/spiders/skupstina_me.py:159-178 | `Group`: the row loop builds exactly the grouped records |
| SkupstinaMeSpider.GroupFails | visegrad/spiders/skupstina_me.py:159-178 | the loop fails exactly when a header row has no link or a keyed info row has no value |
| SkupstinaMeSpider.Headers | visegrad/spiders/skupstina_me.py:162-171 | there are no more headers than rows |
| SkupstinaMeSpider.CarriesCons | visegrad/spiders/skupstina_me.py:164-171 | one more header record in front extends the records that carry the headers |
| SkupstinaMeSpider.HeaderStep | visegrad/spiders/skupstina_me.py:162-171 | a header row appends the record being built and starts the header's own |
| SkupstinaMeSpider.GroupFromHeaders | visegrad/spiders/skupstina_me.py:159-178 | from any point, well-formed rows keep the records done and give one record per header after them |
| SkupstinaMeSpider.MotionsFollowHeaders | visegrad/spiders/skupstina_me.py:159-178 | a table that starts with a header, with well-formed rows and labels that never name a header key, gives one record per header row, in row order, each with its header's name and source |
| SkupstinaMeSpider.LastSetMeans | visegrad/spiders/skupstina_me.py:172-176 | the value found is that of the last row that sets the key, and there is none exactly when no row does |
| SkupstinaMeSpider.LastSetFront | visegrad/spiders/skupstina_me.py:172-176 | read from the front, a later row that sets the key wins over the first |
| SkupstinaMeSpider.InfoRowsSet | visegrad/spiders/skupstina_me.py:172-178 | within one motion a key is set when it was already set or some info row sets it, and its value is the last such row's value, or the one it had |
| SkupstinaMeSpider.OneMotion | visegrad/spiders/skupstina_me.py:159-178 | a header row followed by info rows makes one motion whose keys are `name`, `sources` and the keys the rows set, each with the last value given |
| SkupstinaMeSpider.LeadingInfoKept | visegrad/spiders/skupstina_me.py:164-178 | an info row before the first header fills a record with no name, which is kept as a motion of its own |
| SkupstinaMeSpider.FirstRecordKept | visegrad/spiders/skupstina_me.py:164-178 | a non-empty record being built is the next one appended, without keys no row sets |
| SkupstinaMeSpider.GroupPrefix | visegrad/spiders/skupstina_me.py:164-178 | the records done stay in front, in order |
| SkupstinaMeSpider.AddedValues | visegrad/spiders/skupstina_me.py:187-192 | `add_value` of a string gives that one value |
| SkupstinaMeSpider.ResultIn | visegrad/spiders/skupstina_me.py:191-192 | a result value is accepted exactly when it is a string, and gives at most one result |
| SkupstinaMeSpider.DateIn | visegrad/spiders/skupstina_me.py:191-192 | a date is accepted exactly when it is a string `me_to_iso_datetime` converts, and gives that ISO date and time |
| SkupstinaMeSpider.CopiedKey | visegrad/spiders/skupstina_me.py:189-192 | a copied key gives an `add_value` call only when the record's value is truthy, and then exactly one, for its field with the processed values or the processor's error |
| SkupstinaMeSpider.CopiedValues | visegrad/spiders/skupstina_me.py:180-192 | the copied keys only fill `result` and `date` |
| SkupstinaMeSpider.NamelessMotionFails | visegrad/spiders/skupstina_me.py:187 | a record without a name fails with KeyError('name') |
| SkupstinaMeSpider.Yielded | visegrad/spiders/skupstina_me.py:185-193 | the generator of `ParseMotions`: the generator yields the items of the records in order, all of them when none raises, and otherwise stops at the first that raises with its error |
| SkupstinaMeSpider.LeadingInfoStops | visegrad/spiders/skupstina_me.py:149-193 | `ParseMotions`: an info row before the first header makes the page yield no motion and fail with KeyError('name') |
| SkupstinaMeSpider.AddedFieldsWithin | visegrad/spiders/skupstina_me.py:186-192 | the loader is given values only for the fields listed |
| SkupstinaMeSpider.MotionFields | visegrad/spiders/skupstina_me.py:185-193 | a loaded motion sets only text, sources, result and date, all fields a Motion declares |
| SkupstinaMeSpider.MotionFieldsDeclared | visegrad/items.py:111-125 | text, sources, result and date are fields of Motion |
| SkupstinaMeSpider.MotionRecordShape | visegrad/spiders/skupstina_me.py:185-193 | the motion record holds text, result and date exactly when given, and always its sources |
| SkupstinaMeSpider.LoadSteps | visegrad/spiders/skupstina_me.py:187-192 | a field with no processor of its own loads to its first value before the rest |
| SkupstinaMeSpider.MotionLoaded | visegrad/spiders/skupstina_me.py:185-193 | `MotionItem`: a record with a name and sources whose result and date are accepted loads to a Motion with its name as text, its sources as URL records, and the result and date when they were truthy |
| SkupstinaMeSpider.MotionLoadedWith | visegrad/spiders/skupstina_me.py:185-193 | the same for any accepted result and date |
| SkupstinaMeSpider.CopiedLoaded | visegrad/spiders/skupstina_me.py:189-192 | loading the copied keys sets result, then date, each only when it has a value |
| SkupstinaMeSpider.CopiedStep | visegrad/spiders/skupstina_me.py:189-192 | loading one copied key's field before the rest |
| SkupstinaMeSpider.PlainCopiedFields | visegrad/items.py:111-125 | a Motion's text, result and date have no processor of their own and keep their first value |
| SkupstinaMeSpider.RequestUrl | visegrad/spiders/skupstina_me.py:48-49 | a link's URL ends with the link, and is the link itself with no base or with an absolute link |
| SkupstinaMeSpider.Requests | visegrad/spiders/skupstina_me.py:46-50 | one request per link, in order, each with the callback, ending with its link and equal to it when there is no base |
| SkupstinaMeSpider.MakeRequests | visegrad/spiders/skupstina_me.py:46-50 | `make_requests_from_iterable` yields exactly those requests |
| SkupstinaMeSpider.RequestsStep | visegrad/spiders/skupstina_me.py:47-50 | one more link adds its request at the end |

## Left out

- The `vpapi` client, its authentication and the HTTP transport. The remote API is the `Store` value, and a refused endpoint stands in for any response whose status is not `OK`.
- Environment variables and the clock. The API password, the token and today's date are parameters. Dates are day numbers, and `strftime` renders only the fixed formats the spiders use.
- File I/O:
  - opening and reading the JSON-lines files in `load_json`. A file is given as its lines. `DecodeLines` models how one file's lines are trimmed and decoded, with the JSON decoder as a parameter;
  - the export pipeline's file handles and item exporters, and `spider_closed`.
- `download_pdf` and the PDF parsing of Montenegrin transcripts. The parsed speeches are an input to the speech export.
- `strptime` accepts only the zero-padded shapes of each format. Python also accepts unpadded fields.
- URL joining does not resolve `.` and `..` segments. URL splitting does not treat `;params` or user-info separately.
- UrlJoin: a reference that repeats the base's scheme without an authority (such as "http:foo" against an http base) is returned as written rather than resolved against the base, and an absolute reference under the same scheme is returned as written rather than rebuilt with its scheme in lower case.
- Dictionary iteration order is the order of the input sequence. This covers translation tables, `parse_qs`, `urlencode`, `counts.items()`, and the first key in `get_action_url`.
- `MapCompose` flattening of nested lists: every processor returns a single value or none.
- Lower-casing covers ASCII, Latin-1 and Latin Extended-A only. Other characters are left as they are.
- LabelRun, LabelRunLength, LabelText, LabelOf, InfoKey and KeyOfLabel: the Unicode word class `\w` is modelled for Basic Latin, Latin-1 and Latin Extended-A, which cover the Montenegrin Latin alphabet. Letters and digits of other scripts, such as Cyrillic, count as non-word characters here.
- Scrapy selectors and XPath/CSS queries. A table row is given as the texts and links the selectors would have returned.
- Callbacks not modelled:
  - Montenegro: `parse_person`, `parse_commitee`, `parse_sittings`, `parse_sitting` and `start_requests`;
  - Hungary: the `parse_*` callbacks and `start_requests`;
  - Poland: the remaining fields of `parse_person`, and the items of `parse_commitees`.
- Records.Show renders a list or a dict as a fixed placeholder. Export.CacheKey and Pipelines.IdentifiersKey build keys with it. So two different list or dict schemes, or two identifiers of that kind, share a key in the model, where Python's `%s` keeps them apart. The scrapers' schemes and identifiers are strings.
- Export.PeoplePhase, OrganizationsPhase, MembershipsPhase, MotionsPhase and VotesPhase take each file's records already decoded. A line that fails to decode part way through a phase raises ValueError in Python after the earlier records were sent. The phases do not model this. `DecodeLines` models the decoding on its own.
- Items.GetFullUrl: a response URL that is neither a string nor None raises TypeError in the model. Python's `urljoin` returns the URL for any falsy base and raises its own exception for other values.
- `export_speeches` in `visegrad/api/parliaments.py` reads `self.events_ids`, which nothing in `visegrad/api/base.py` sets, and passes `where_keys` to `get_or_create`, which `visegrad/api/base.py` does not accept. The model takes them as parameters. It records `where_keys` in each request and does not interpret them.
- Parliaments.ExportSpeeches, SpeechPlan: the speeches and the remote people are inputs, and the `get_or_create` requests are handed back without being reconciled against the store. So a refused write and the Exception it raises are not modelled. Two failures of the source are also left out of these members:
  - `load_json('speeches')` raises KeyError when the speech loop first iterates, because `FILES` (visegrad/api/base.py:24-31) has no entry for speeches (`Export.SpeechesNotLoadable`);
  - a speech whose source is not a PDF is passed whole to `get_or_create`, which raises KeyError('identifiers') (visegrad/api/base.py:97-99) because the Speech item (visegrad/items.py:164-182) has no `identifiers` field (`Export.SpeechWithoutIdentifiersRaises`).
- Export.GetChamber, ApiExport.VisegradApiExport.GetChamber, ApiExport.VisegradApiExport.ExportPeople, ApiExport.VisegradApiExport.ExportOrganizations, ApiExport.VisegradApiExport.ExportMotions, ApiExport.VisegradApiExport.RunExport, Export.MakeChamber: `get_chamber` (visegrad/api/base.py:144) calls `make_chamber()` with no argument, while every exporter's `make_chamber` takes an `index`, so Python raises TypeError there (see Findings). These members model the corrected call: they pass `Config.chamberIndex`, a value the source never supplies. The four methods of the class reach `get_chamber` and inherit that correction. `GetChamberAsWritten` and `RunExportAsWritten` model the call as written.
- PeoplePhaseSends describes `export_people` with the corrected `get_chamber`. As written, the phase raises TypeError at its first statement when no chamber is memoised, before any person is sent (`PhaseRaisesAsWritten`).
- OrganizationsPhaseSends describes `export_organizations` with the corrected `get_chamber`. As written, it raises TypeError at its first statement when no chamber is memoised (`PhaseRaisesAsWritten`).
- MotionsPhaseSends describes `export_motions` with the corrected `get_chamber`. As written, it raises TypeError at its first statement when no chamber is memoised (`PhaseRaisesAsWritten`).
- RunExportOneChamber describes `run_export` with the corrected `get_chamber`. As written, no chamber is ever made: the export stops with TypeError in the people phase (`RunExportRaisesAsWritten`).
- Imports that fail as written: `visegrad/api/parliaments.py` imports `parse_me_pdf`, which `visegrad/utils.py` does not define. `visegrad/spiders/skupstina_me.py` imports `SkupstinaMeEventLoader` and `SkupstinaMeSpeechLoader`, which `visegrad/loaders.py` does not define. So in Python neither module can be imported, and neither can the spider package Scrapy loads. The model treats every function of these modules as reachable.
- `self.log` calls are modelled as a sequence of export phases, not as text written to a logger.
- `visegrad/settings.py`: Scrapy configuration only, with no behaviour of its own to model.

## Findings

| source | as written | input that shows it | evidently intended | confidence | as-written member | corrected member |
|---|---|---|---|---|---|---|
| visegrad/api/parliaments.py:38-40 | the third speaker-prefix alternative follows a backslash-newline, so it only matches "generalni sekretar " after a line break | a speech creator "generalni sekretar ana" | the title is removed like the other two, leaving "ana" | high, not executed | Parliaments.SecretaryTitleKeptAsWritten | Parliaments.SecretaryTitleRemoved |
| visegrad/spiders/parlament_hu.py:222 | the last window is sent only when `start < end` | today = VOTES_START_DATE + 61 days: the loop's one window starts the day after VOTES_START_DATE | every day from VOTES_START_DATE to today lies in exactly one window | medium, not executed | ParlamentHuSpider.SkippedStartDay | ParlamentHuSpider.WindowsPartition |
| visegrad/spiders/mojepanstwo_pl.py:151 | the next page of committees is parsed by `parse_people` | a committee listing with to=100, total=150 | each listing's next page is parsed by that listing's own callback | high, not executed | MojePanstwoSpider.CommiteePagesAsWritten | MojePanstwoSpider.NextPageRule |
| visegrad/spiders/mojepanstwo_pl.py:217-223 | the voter dict goes through `parse_identifier` and ends up wrapped under 'identifier' | any vote of any vote event | a voter reference with a scheme and an identifier that the exporter can resolve | high, not executed | MojePanstwoSpider.VoterWrappedTwice | MojePanstwoSpider.VoteRefersToVoter |
| visegrad/api/base.py:144 | `get_chamber` calls `self.make_chamber()` with no argument, while every exporter's `make_chamber` takes an `index`, so the call raises TypeError | `run_export` on a newly built exporter: `export_people` raises at its first statement, before any person is sent | `make_chamber` is given the exporter's chamber index, the chamber is made once, and the phases go on | high, not executed | Export.RunExportRaisesAsWritten | Export.ChamberMadeOnce |
| visegrad/spiders/skupstina_me.py:18 | `parse_qs` is applied to the whole URL, so the first parameter's name is 'path?id' | the link "index.php?id=42" | the id parameter of the link's query | high, not executed | SkupstinaMeSpider.QueryIdMissedAsWritten | SkupstinaMeSpider.QueryIdFound |
