/**
 * The Polish parliament's scraper (the mojepanstwo.pl API): its API URLs,
 * the paging of the three listings it walks, the gender of a member, and
 * the counts and votes of a vote event.
 */
module MojePanstwoSpider {
  import opened Text
  import opened Records
  import opened Urls
  import opened Utils
  import opened Items
  import Loaders
  import Export

  const ApiRoot := "http://api.mojepanstwo.pl/"
  const PageLimit := "100"
  const PersonScheme := "mojepanstwo.pl/poslowie"

  // ---------------------------------------------------------------------
  // get_api_url

  /** `api_url.rstrip('/')` */
  lemma ApiBase()
    ensures RStripChar(ApiRoot, '/') == "http://api.mojepanstwo.pl"
    ensures '?' !in RStripChar(ApiRoot, '/')
  {
    assert ApiRoot[..|ApiRoot| - 1] == "http://api.mojepanstwo.pl";
    assert forall k :: 0 <= k < |ApiRoot| ==> ApiRoot[k] != '?';
  }

  /** The path part of the argument, with a leading '/' added when it has none. */
  function ApiPath(path: string): (p: string)
    ensures p != [] && p[0] == '/' && '?' !in p && '#' !in p
    ensures p == PathOf(path) || p == "/" + PathOf(path)
  {
    var q := PathOf(path);
    if StartsWith(q, "/") then q else "/" + q
  }

  /**
   * `get_api_url(path, **params)`: the root without its trailing '/', the
   * path part of `path`, and the encoded parameters after '?' when there are any.
   */
  function GetApiUrl(path: string, params: seq<(string, string)>): (url: string)
    requires BytePairs(params)
  {
    var url := RStripChar(ApiRoot, '/') + ApiPath(path);
    if params != [] then url + "?" + UrlEncode(params) else url
  }

  lemma {:induction false} BeforeQueryKeeps(s: string)
    requires '?' !in s && '#' !in s
    ensures BeforeQuery(s) == s
  {
    if s != [] {
      BeforeQueryKeeps(s[1..]);
      assert s == [s[0]] + s[1..];
    }
  }

  /** A plain absolute path is used as it is. */
  lemma ApiUrlOfPath(path: string)
    requires StartsWith(path, "/") && '?' !in path && '#' !in path
    ensures GetApiUrl(path, []) == "http://api.mojepanstwo.pl" + path
  {
    ApiBase();
    assert !HasAuthority(path);
    assert Origin(path) == [];
    BeforeQueryKeeps(path);
  }

  /** A relative path gets its leading '/'. */
  lemma ApiUrlOfRelativePath(path: string)
    requires path != [] && path[0] != '/' && !HasAuthority(path) && '?' !in path && '#' !in path
    ensures GetApiUrl(path, []) == "http://api.mojepanstwo.pl" + "/" + path
  {
    ApiBase();
    BeforeQueryKeeps(path);
  }

  /**
   * The URL has a query exactly when there are parameters, and the query
   * parses back to them when no value is empty.
   */
  lemma ApiUrlQuery(path: string, params: seq<(string, string)>)
    requires BytePairs(params) && forall i :: 0 <= i < |params| ==> params[i].1 != []
    ensures params == [] ==> '?' !in GetApiUrl(path, params)
    ensures params != [] ==> ParseQsl(QueryOf(GetApiUrl(path, params))) == params
  {
    ApiBase();
    var head := RStripChar(ApiRoot, '/') + ApiPath(path);
    assert '?' !in head;
    if params != [] {
      QueryOfEncoded(head, params);
    }
  }

  // ---------------------------------------------------------------------
  // paging

  /** The parse callbacks of the scraper. */
  datatype Callback = ParsePeople | ParsePerson | ParseCommitees | ParseCommitee | ParseVoteEvents | ParseVoteEvent

  /** The three search listings the scraper walks. */
  datatype Listing = People | Commitees | VoteEvents

  function ListingPath(l: Listing): string {
    match l
    case People => "/dane/dataset/poslowie/search.json"
    case Commitees => "/dane/dataset/sejm_komisje/search.json"
    case VoteEvents => "/dane/dataset/sejm_glosowania/search.json"
  }

  /** The callback that parses a page of the listing. */
  function ListingParser(l: Listing): Callback {
    match l
    case People => ParsePeople
    case Commitees => ParseCommitees
    case VoteEvents => ParseVoteEvents
  }

  /**
   * A request: the path and parameters its URL is built from by
   * `get_api_url`, its callback, and the page number carried in its meta.
   */
  datatype Request = Request(path: string, params: seq<(string, string)>, callback: Callback, page: Option<int>)

  function RequestUrl(r: Request): string
    requires BytePairs(r.params)
  {
    GetApiUrl(r.path, r.params)
  }

  lemma PageParamsBytes(page: int)
    ensures BytePairs([("page", IntToString(page)), ("limit", PageLimit)])
    ensures BytePairs([("limit", PageLimit)])
  {
    var s := IntToString(page);
    assert forall k :: 0 <= k < |s| ==> s[k] == '-' || IsDigit(s[k]);
    assert forall k :: 0 <= k < |"page"| ==> "page"[k] as int < 256;
    assert forall k :: 0 <= k < |"limit"| ==> "limit"[k] as int < 256;
    assert forall k :: 0 <= k < |PageLimit| ==> PageLimit[k] as int < 256;
  }

  const Listings: seq<Listing> := [People, Commitees, VoteEvents]

  /** The request for the first page of a listing, `limit=100`. */
  function FirstPage(l: Listing): Request {
    Request(ListingPath(l), [("limit", PageLimit)], ListingParser(l), None)
  }

  /** `start_requests`: the first page of each listing. */
  function StartRequests(): (rs: seq<Request>)
    ensures |rs| == |Listings|
    ensures forall i :: 0 <= i < |rs| ==> rs[i] == FirstPage(Listings[i])
  {
    [FirstPage(People), FirstPage(Commitees), FirstPage(VoteEvents)]
  }

  /** The page after the one in the response's meta (page 1 when it has none). */
  function FollowingPage(page: Option<int>): int {
    (if page.Some? then page.value else 1) + 1
  }

  /**
   * The next-page request of a listing's parse callback as written: asked
   * for exactly when `to < total`; the committees listing sends its next
   * page to `parse_people`.
   */
  function NextPageAsWritten(l: Listing, to: int, total: int, page: Option<int>): Option<Request> {
    if to < total then
      var next := FollowingPage(page);
      var callback := if l == Commitees then ParsePeople else ListingParser(l);
      Some(Request(ListingPath(l), [("page", IntToString(next)), ("limit", PageLimit)], callback, Some(next)))
    else None
  }

  /** The next-page request with every listing's next page parsed by that listing's callback. */
  function NextPage(l: Listing, to: int, total: int, page: Option<int>): Option<Request> {
    if to < total then
      var next := FollowingPage(page);
      Some(Request(ListingPath(l), [("page", IntToString(next)), ("limit", PageLimit)], ListingParser(l), Some(next)))
    else None
  }

  /** As written, the second page of committees is parsed as a page of people. */
  lemma CommiteePagesAsWritten()
    ensures NextPageAsWritten(Commitees, 100, 150, None).Some?
    ensures NextPageAsWritten(Commitees, 100, 150, None).value.callback == ParsePeople
    ensures ParsePeople != ListingParser(Commitees)
  {
  }

  /**
   * A next page is asked for exactly when `to < total`; it is the page after
   * the current one (page 1 when the meta has none), it asks the same
   * listing for that page with `limit=100` in the query, and it is parsed
   * by the listing's own callback.
   */
  lemma NextPageRule(l: Listing, to: int, total: int, page: Option<int>)
    ensures NextPage(l, to, total, page).Some? <==> to < total
    ensures to < total ==>
      var r := NextPage(l, to, total, page).value;
      var next := (if page.Some? then page.value else 1) + 1;
      r.page == Some(next) && r.callback == ListingParser(l) && r.path == ListingPath(l)
      && BytePairs(r.params)
      && ParseQsl(QueryOf(RequestUrl(r))) == [("page", IntToString(next)), ("limit", PageLimit)]
  {
    if to < total {
      PageRequestQuery(l, FollowingPage(page));
    }
  }

  /** The URL of a listing page carries exactly its page number and the limit. */
  lemma PageRequestQuery(l: Listing, next: int)
    ensures var params := [("page", IntToString(next)), ("limit", PageLimit)];
      BytePairs(params) && ParseQsl(QueryOf(GetApiUrl(ListingPath(l), params))) == params
  {
    var params := [("page", IntToString(next)), ("limit", PageLimit)];
    PageParamsBytes(next);
    assert IntToString(next) != [] && PageLimit != [];
    ApiUrlQuery(ListingPath(l), params);
  }

  // ---------------------------------------------------------------------
  // parse_person: gender

  /** `{'M': 'male', 'K': 'female'}.get(person.get('plec'))` */
  function Gender(plec: Value): (g: Option<string>)
    ensures g == Some("male") <==> plec == Str("M")
    ensures g == Some("female") <==> plec == Str("K")
    ensures g.None? <==> plec != Str("M") && plec != Str("K")
  {
    if plec == Str("M") then Some("male")
    else if plec == Str("K") then Some("female")
    else None
  }

  /** The gender value added to the person's loader, when there is one. */
  function GenderValues(plec: Value): seq<(string, seq<Value>)> {
    match Gender(plec)
    case None => []
    case Some(g) => [("gender", [Str(g)])]
  }

  /** A word added as a person's gender becomes the gender, stripped, unless that leaves nothing. */
  lemma GenderField(item: Record, g: string, context: Context)
    ensures var clean := Loaders.StripText(g);
      LoadItem(Person, item, [("gender", [Str(g)])], context, Loaders.StripValue)
      == Ok(if clean != [] then item["gender" := Str(clean)] else item)
  {
    var clean := TakeFirst([Str(Loaders.StripText(g))]);
    GenderProcessed(g, context);
    LoadItemOne(Person, item, "gender", [Str(g)], context, Loaders.StripValue, clean);
  }

  lemma GenderProcessed(g: string, context: Context)
    ensures LoadField(Person, "gender", [Str(g)], context, Loaders.StripValue) == Ok(TakeFirst([Str(Loaders.StripText(g))]))
  {
    LoadSingle(Person, "gender", Str(g), context, Loaders.StripValue);
    assert FieldInput(Person, "gender") == LoaderDefault;
    assert !ListOutput(Person, "gender");
  }

  /**
   * A person gets the gender 'male' for 'M' and 'female' for 'K'; any other
   * value leaves the person's gender as it was.
   */
  lemma GenderLoaded(item: Record, plec: Value, context: Context)
    ensures LoadItem(Person, item, GenderValues(plec), context, Loaders.StripValue)
      == Ok(if plec == Str("M") then item["gender" := Str("male")]
            else if plec == Str("K") then item["gender" := Str("female")]
            else item)
  {
    match Gender(plec)
    case None =>
    case Some(g) =>
      GenderWordsPlain();
      GenderField(item, g, context);
  }

  lemma GenderWordsPlain()
    ensures Loaders.StripText("male") == "male" && Loaders.StripText("female") == "female"
  {
    PlainWord("male");
    PlainWord("female");
  }

  lemma PlainWord(s: string)
    requires s != [] && forall i :: 0 <= i < |s| ==> 'a' <= s[i] <= 'z'
    ensures Loaders.StripText(s) == s
  {
    assert ReplaceChar(s, Loaders.NoBreakSpace, ' ') == s;
    assert !IsSpace(s[0]) && !IsSpace(s[|s| - 1]);
  }

  // ---------------------------------------------------------------------
  // parse_vote_event: counts

  /** The vote event's keys of the four counts and the option each becomes. */
  const CountKeys: seq<(string, string)> := [("z", "yes"), ("p", "no"), ("w", "abstain"), ("n", "absent")]

  /** `Count(option=option, value=value)` */
  function CountItem(option: string, value: Value): Value {
    Obj(map["option" := Str(option), "value" := value])
  }

  /** The counts of a vote event, in the order of CountKeys; a missing key is a KeyError. */
  function Counts(voteEvent: Record, keys: seq<(string, string)>): (r: Result<seq<Value>>)
    ensures r.Ok? <==> forall i :: 0 <= i < |keys| ==> keys[i].0 in voteEvent
    ensures r.Ok? ==>
      |r.value| == |keys| && forall i :: 0 <= i < |keys| ==> r.value[i] == CountItem(keys[i].1, voteEvent[keys[i].0])
  {
    if keys == [] then Ok([])
    else
      var v :- Lookup(voteEvent, keys[0].0);
      var rest :- Counts(voteEvent, keys[1..]);
      Ok([CountItem(keys[0].1, v)] + rest)
  }

  /**
   * The vote event's counts field is the list of the four counts, yes, no,
   * abstain and absent, taken from 'z', 'p', 'w' and 'n'.
   */
  lemma CountsField(voteEvent: Record, context: Context)
    requires "z" in voteEvent && "p" in voteEvent && "w" in voteEvent && "n" in voteEvent
    ensures Counts(voteEvent, CountKeys).Ok?
    ensures var counts := Counts(voteEvent, CountKeys).value;
      LoadField(VoteEvent, "counts", counts, context, Identity) == Ok(Some(Arr(counts)))
      && counts == [CountItem("yes", voteEvent["z"]), CountItem("no", voteEvent["p"]),
                    CountItem("abstain", voteEvent["w"]), CountItem("absent", voteEvent["n"])]
  {
    var r := Counts(voteEvent, CountKeys);
    assert r.Ok?;
    IdentityInput(r.value, context);
    assert FieldInput(VoteEvent, "counts") == LoaderDefault && ListOutput(VoteEvent, "counts");
  }

  // ---------------------------------------------------------------------
  // parse_vote_event: votes

  /** `translate(glos_id, VOTE_OPTIONS)`: '1'..'4' become yes, no, abstain, absent; anything else is kept. */
  function VoteOption(glos: string): string {
    var r := Loaders.Translate(glos, Loaders.MojePanstwoVoteOptions, false);
    assert r.Some?;
    r.value
  }

  lemma VoteOptionCodes()
    ensures forall i :: 0 <= i < |Loaders.MojePanstwoVoteOptions| ==>
      VoteOption(Loaders.MojePanstwoVoteOptions[i].0) == Loaders.MojePanstwoVoteOptions[i].1
  {
    Loaders.MojePanstwoVoteOptionsOneToOne();
  }

  /** What `parse_vote_event` adds to one vote's loader. */
  function VoteValues(eventIdentifier: Value, voter: Value, option: string): seq<(string, seq<Value>)> {
    [("vote_event_id", [eventIdentifier]), ("voter_id", [voter]), ("option", [Str(option)])]
  }

  /**
   * A vote as written: the voter is added as a ready-made
   * `{'scheme': ..., 'identifier': ...}` record, which the Vote item's
   * `parse_identifier` then wraps once more.
   */
  function VoteAsWritten(voteEvent: Record, personId: Value, glos: string): Result<Record> {
    var eventIdentifier :- Lookup(voteEvent, "identifier");
    var voter := Obj(map["scheme" := Str(PersonScheme), "identifier" := personId]);
    LoadItem(Vote, map[], VoteValues(eventIdentifier, voter, VoteOption(glos)), map[], Identity)
  }

  /** A vote whose loader carries the members' scheme, given the bare person id. */
  function VoteOf(voteEvent: Record, personId: Value, glos: string): Result<Record> {
    var eventIdentifier :- Lookup(voteEvent, "identifier");
    LoadItem(Vote, map[], VoteValues(eventIdentifier, personId, VoteOption(glos)), map["scheme" := Str(PersonScheme)], Identity)
  }

  lemma VoteFieldNames()
    ensures "vote_event_id" != "voter_id" && "vote_event_id" != "option" && "voter_id" != "option"
  {
    assert "vote_event_id"[4] != "voter_id"[4];
    assert "vote_event_id"[0] != "option"[0] && "voter_id"[0] != "option"[0];
  }

  /** The vote event's identifier is taken as it is. */
  lemma EventIdProcessed(eventIdentifier: Value, context: Context)
    ensures LoadField(Vote, "vote_event_id", [eventIdentifier], context, Identity) == Ok(TakeFirst([eventIdentifier]))
  {
    LoadSingle(Vote, "vote_event_id", eventIdentifier, context, Identity);
    assert FieldInput(Vote, "vote_event_id") == LoaderDefault && !ListOutput(Vote, "vote_event_id");
  }

  /** The voter goes through `parse_identifier`; the option is taken as it is. */
  lemma VoterAndOptionProcessed(voter: Value, option: string, context: Context)
    ensures LoadField(Vote, "voter_id", [voter], context, Identity) == Ok(Some(Obj(ParseIdentifier(voter, context))))
    ensures LoadField(Vote, "option", [Str(option)], context, Identity) == Ok(TakeFirst([Str(option)]))
  {
    ReferencesParsed(Vote, "voter_id", [voter], context, Identity);
    OptionTakenAsIs(option, context);
  }

  lemma OptionTakenAsIs(option: string, context: Context)
    ensures LoadField(Vote, "option", [Str(option)], context, Identity) == Ok(TakeFirst([Str(option)]))
  {
    LoadSingle(Vote, "option", Str(option), context, Identity);
    assert FieldInput(Vote, "option") == LoaderDefault;
    assert !ListOutput(Vote, "option");
  }

  /** The three fields of a loaded vote, each given one value. */
  lemma VoteLoaded(eventIdentifier: Value, voter: Value, o: string, context: Context)
    ensures var r := LoadItem(Vote, map[], VoteValues(eventIdentifier, voter, o), context, Identity);
      r.Ok?
      && ("voter_id" in r.value && r.value["voter_id"] == Obj(ParseIdentifier(voter, context)))
      && ("vote_event_id" in r.value <==> TakeFirst([eventIdentifier]).Some?)
      && ("vote_event_id" in r.value ==> r.value["vote_event_id"] == eventIdentifier)
  {
    EventIdProcessed(eventIdentifier, context);
    VoteFieldNames();
    var first := TakeFirst([eventIdentifier]);
    var item1: Record := if first.Some? then map["vote_event_id" := first.value] else map[];
    var tail := [("voter_id", [voter]), ("option", [Str(o)])];
    assert VoteValues(eventIdentifier, voter, o) == [("vote_event_id", [eventIdentifier])] + tail;
    LoadItemStep(Vote, map[], "vote_event_id", [eventIdentifier], tail, context, Identity, first);
    VoterAndOptionLoaded(item1, voter, o, context);
    var voterRecord := Obj(ParseIdentifier(voter, context));
    var item2 := item1["voter_id" := voterRecord];
    SetThenMaybe(item1, "voter_id", voterRecord, "option", Str(o), o != [], "vote_event_id");
  }

  /** Setting one key and then perhaps another keeps the first value and leaves a third key alone. */
  lemma SetThenMaybe<K, V>(m: map<K, V>, k1: K, v1: V, k2: K, v2: V, set2: bool, k0: K)
    requires k1 != k2 && k0 != k1 && k0 != k2
    ensures var r := if set2 then m[k1 := v1][k2 := v2] else m[k1 := v1];
      k1 in r && r[k1] == v1
      && (k0 in r <==> k0 in m)
      && (k0 in r ==> r[k0] == m[k0])
  {
  }

  /** The voter and the option, loaded after the vote event. */
  lemma VoterAndOptionLoaded(item: Record, voter: Value, o: string, context: Context)
    ensures var r := LoadItem(Vote, item, [("voter_id", [voter]), ("option", [Str(o)])], context, Identity);
      var withVoter := item["voter_id" := Obj(ParseIdentifier(voter, context))];
      r == Ok(if o != [] then withVoter["option" := Str(o)] else withVoter)
  {
    VoterAndOptionProcessed(voter, o, context);
    LoadTwo(Vote, item, "voter_id", [voter], Obj(ParseIdentifier(voter, context)), "option", [Str(o)], TakeFirst([Str(o)]),
            context, Identity);
  }

  /**
   * As written, every vote's voter is `{'identifier': {'scheme': ..., 'identifier': ...}}`:
   * the exporter finds no scheme in it, and sending the vote fails with a KeyError.
   */
  lemma VoterWrappedTwice(voteEvent: Record, personId: Value, glos: string, st: Export.State, eventId: string)
    requires "identifier" in voteEvent
    ensures VoteAsWritten(voteEvent, personId, glos).Ok?
    ensures var vote := VoteAsWritten(voteEvent, personId, glos).value;
      "voter_id" in vote
      && vote["voter_id"] == Obj(map["identifier" := Obj(map["scheme" := Str(PersonScheme), "identifier" := personId])])
      && Export.SendVote(st, vote, eventId).1 == Err(KeyError("scheme"))
  {
    var voter := Obj(map["scheme" := Str(PersonScheme), "identifier" := personId]);
    VoteLoaded(voteEvent["identifier"], voter, VoteOption(glos), map[]);
    var vote := VoteAsWritten(voteEvent, personId, glos).value;
    VoteFieldNames();
    VoterNotResolved(vote, eventId, Obj(map["scheme" := Str(PersonScheme), "identifier" := personId]));
    Export.SendVoteUnresolved(st, vote, eventId);
  }

  /** A voter wrapped under 'identifier' alone has no scheme for the exporter to read. */
  lemma VoterNotResolved(vote: Record, eventId: string, inner: Value)
    requires "voter_id" in vote && vote["voter_id"] == Obj(map["identifier" := inner])
    ensures Export.Reference(vote["vote_event_id" := Str(eventId)], "voter_id") == Err(KeyError("scheme"))
  {
    VoteFieldNames();
    var pointed := vote["vote_event_id" := Str(eventId)];
    assert pointed["voter_id"] == vote["voter_id"];
    assert "scheme" != "identifier" by { assert "scheme"[0] != "identifier"[0]; }
  }

  /**
   * With the scheme given to the loader, every vote points at its vote
   * event's identifier and its voter is the person under the members'
   * scheme, a reference the exporter can resolve.
   */
  lemma VoteRefersToVoter(voteEvent: Record, personId: Value, glos: string, eventId: string)
    requires "identifier" in voteEvent
    ensures VoteOf(voteEvent, personId, glos).Ok?
    ensures var vote := VoteOf(voteEvent, personId, glos).value;
      "voter_id" in vote
      && vote["voter_id"] == Obj(map["identifier" := personId, "scheme" := Str(PersonScheme)])
      && ("vote_event_id" in vote <==> TakeFirst([voteEvent["identifier"]]).Some?)
      && ("vote_event_id" in vote ==> vote["vote_event_id"] == voteEvent["identifier"])
      && Export.Reference(vote["vote_event_id" := Str(eventId)], "voter_id") == Ok((Str(PersonScheme), personId))
  {
    var context: Context := map["scheme" := Str(PersonScheme)];
    VoteLoaded(voteEvent["identifier"], personId, VoteOption(glos), context);
    var vote := VoteOf(voteEvent, personId, glos).value;
    assert ParseIdentifier(personId, context) == map["identifier" := personId, "scheme" := Str(PersonScheme)];
    VoteFieldNames();
    var pointed := vote["vote_event_id" := Str(eventId)];
    assert pointed["voter_id"] == vote["voter_id"];
  }
}
