/**
 * The exporter: it reads the records the scrapers buffered, one file per
 * record type, and reconciles them with the remote store in five phases
 * (people, organizations, memberships, motions, votes). It keeps two pieces
 * of state besides the store: the chamber record, made once per run, and a
 * cache from "scheme/identifier" to the remote id of the record carrying that
 * identifier.
 *
 * Every operation is first defined as a function over a `State` value; the
 * `Exporter` class holds the same state in fields, and each of its methods is
 * proved to leave the fields as the function says.
 */
module Export {
  import opened Text
  import opened Records
  import opened Store
  import opened Reconcile
  import opened Parliaments

  // ---------------------------------------------------------------- buffered records

  /** The buffered output of one parliament: file name -> the decoded records of its lines. */
  type Buffer = map<string, seq<Record>>

  /** The `FILES` table: the file each source is buffered in. */
  const Files: map<string, string> := map[
    "people" := "Person.json", "organizations" := "Organization.json",
    "memberships" := "Membership.json", "motions" := "Motion.json",
    "vote-events" := "VoteEvent.json", "votes" := "Vote.json"]

  /**
   * `load_json(source)`: an unknown source raises, a file that does not exist
   * yields no records.
   */
  function Load(files: Buffer, source: string): (r: Result<seq<Record>>)
    ensures r.Ok? <==> source in Files
    ensures source in Files && Files[source] !in files ==> r == Ok([])
  {
    if source !in Files then Err(KeyError(source))
    else if Files[source] in files then Ok(files[Files[source]])
    else Ok([])
  }

  /** `load_json('speeches')` raises: the `FILES` table has no entry for speeches. */
  lemma SpeechesNotLoadable(files: Buffer)
    ensures Load(files, "speeches") == Err(KeyError("speeches"))
  {
  }

  /**
   * A speech sent whole (one whose source is not a PDF) raises before any
   * call: speeches are looked up by their first identifier, and a speech
   * record has no `identifiers` field.
   */
  lemma SpeechWithoutIdentifiersRaises(s: Store, speech: Record)
    requires "identifiers" !in speech
    ensures GetOrCreate(s, "speeches", speech) == (s, Err(KeyError("identifiers")))
  {
  }

  predicate IsAsciiSpace(c: char) {
    c == ' ' || c == '\t' || c == '\n' || c == '\r' || c == '\U{000B}' || c == '\U{000C}'
  }

  /** `line.rstrip()` on a byte string. */
  function RStripAscii(s: string): (r: string)
    ensures |r| <= |s| && r == s[..|r|]
    ensures r == [] || !IsAsciiSpace(r[|r| - 1])
    ensures forall i :: |r| <= i < |s| ==> IsAsciiSpace(s[i])
  {
    if s != [] && IsAsciiSpace(s[|s| - 1]) then RStripAscii(s[..|s| - 1]) else s
  }

  /**
   * A buffered line as `load_json` cleans it before decoding it: the opening
   * brackets in front, then trailing whitespace, closing brackets and commas
   * are cut off.
   */
  function TrimLine(line: string): (r: string)
    ensures r == [] || r[0] != '['
    ensures r == [] || r[|r| - 1] != ','
    ensures |r| <= |line|
  {
    var rest := LStripChar(line, '[');
    var spaced := RStripAscii(rest);
    var closed := RStripChar(spaced, ']');
    var r := RStripChar(closed, ',');
    assert r == [] || r[0] == closed[0] == spaced[0] == rest[0];
    r
  }

  predicate AllChar(s: string, c: char) {
    forall i :: 0 <= i < |s| ==> s[i] == c
  }

  predicate AllAsciiSpace(s: string) {
    forall i :: 0 <= i < |s| ==> IsAsciiSpace(s[i])
  }

  /** A record text that none of the trims touches. */
  predicate CleanLine(x: string) {
    x == [] || (x[0] != '[' && x[|x| - 1] != ',' && x[|x| - 1] != ']' && !IsAsciiSpace(x[|x| - 1]))
  }

  /**
   * Trimming takes back exactly the framing a line can carry: opening
   * brackets in front, then commas, closing brackets and whitespace behind.
   */
  lemma TrimLineFraming(opens: string, x: string, commas: string, closes: string, spaces: string)
    requires AllChar(opens, '[') && AllChar(commas, ',') && AllChar(closes, ']') && AllAsciiSpace(spaces)
    requires CleanLine(x)
    requires x == [] ==> commas == [] && closes == []
    ensures TrimLine(opens + x + commas + closes + spaces) == x
  {
    var line := opens + x + commas + closes + spaces;
    var rest := x + commas + closes + spaces;
    assert opens + rest == line;
    assert rest == [] || rest[0] != '[' by {
      if x == [] {
        assert rest == spaces;
      } else {
        assert rest[0] == x[0];
      }
    }
    LStripFraming(opens, rest);
    assert LStripChar(line, '[') == rest;
    TrimTail(x, commas, closes, spaces);
  }

  lemma TrimTail(x: string, commas: string, closes: string, spaces: string)
    requires AllChar(commas, ',') && AllChar(closes, ']') && AllAsciiSpace(spaces)
    requires CleanLine(x)
    requires x == [] ==> commas == [] && closes == []
    ensures RStripChar(RStripChar(RStripAscii(x + commas + closes + spaces), ']'), ',') == x
  {
    var xc := x + commas + closes;
    assert xc == [] || !IsAsciiSpace(xc[|xc| - 1]);
    RStripAsciiFraming(xc, spaces);
    assert x + commas == [] || (x + commas)[|x + commas| - 1] != ']';
    RStripCharFraming(x + commas, closes, ']');
    RStripCharFraming(x, commas, ',');
  }

  lemma {:induction false} LStripFraming(opens: string, rest: string)
    requires AllChar(opens, '[') && (rest == [] || rest[0] != '[')
    ensures LStripChar(opens + rest, '[') == rest
  {
    if opens != [] {
      assert (opens + rest)[1..] == opens[1..] + rest;
      LStripFraming(opens[1..], rest);
    }
  }

  lemma {:induction false} RStripAsciiFraming(x: string, spaces: string)
    requires AllAsciiSpace(spaces) && (x == [] || !IsAsciiSpace(x[|x| - 1]))
    ensures RStripAscii(x + spaces) == x
  {
    if spaces != [] {
      assert (x + spaces)[..|x + spaces| - 1] == x + spaces[..|spaces| - 1];
      RStripAsciiFraming(x, spaces[..|spaces| - 1]);
    }
  }

  lemma {:induction false} RStripCharFraming(x: string, tail: string, c: char)
    requires AllChar(tail, c) && (x == [] || x[|x| - 1] != c)
    ensures RStripChar(x + tail, c) == x
  {
    if tail != [] {
      assert (x + tail)[..|x + tail| - 1] == x + tail[..|tail| - 1];
      RStripCharFraming(x, tail[..|tail| - 1], c);
    }
  }

  /** Every line of a file, trimmed as `load_json` trims it. */
  function TrimLines(lines: seq<string>): (ts: seq<string>)
    ensures |ts| == |lines| && forall i :: 0 <= i < |lines| ==> ts[i] == TrimLine(lines[i])
  {
    seq(|lines|, i requires 0 <= i < |lines| => TrimLine(lines[i]))
  }

  /**
   * `json.loads` over trimmed lines, the `decode` parameter standing for it:
   * the records come out in line order, and a text that does not decode
   * ends the generator with its error (ValueError for text that is not JSON).
   */
  function DecodeTexts(texts: seq<string>, decode: string -> Result<Record>): (out: (seq<Record>, Option<Failure>))
    ensures |out.0| <= |texts|
    ensures forall i :: 0 <= i < |out.0| ==> decode(texts[i]) == Ok(out.0[i])
    ensures out.1.None? <==> |out.0| == |texts|
    ensures out.1.Some? ==> decode(texts[|out.0|]) == Err(out.1.value)
  {
    if texts == [] then ([], None)
    else match decode(texts[0])
      case Err(e) => ([], Some(e))
      case Ok(r) =>
        var (rest, failure) := DecodeTexts(texts[1..], decode);
        assert forall i :: 1 <= i < |rest| + 1 ==> texts[i] == texts[1..][i - 1];
        ([r] + rest, failure)
  }

  /** The loop of `load_json` over the lines of one file: each line is trimmed, then decoded. */
  function DecodeLines(lines: seq<string>, decode: string -> Result<Record>): (out: (seq<Record>, Option<Failure>))
  {
    DecodeTexts(TrimLines(lines), decode)
  }

  /**
   * Lines whose trimmed texts all decode give exactly their records, in
   * order, and the loop ends without error; TrimLineFraming says which
   * lines trim to a given text.
   */
  lemma DecodeFramedLines(lines: seq<string>, texts: seq<string>, records: seq<Record>,
                          decode: string -> Result<Record>)
    requires |lines| == |texts| == |records|
    requires forall i :: 0 <= i < |lines| ==> TrimLine(lines[i]) == texts[i] && decode(texts[i]) == Ok(records[i])
    ensures DecodeLines(lines, decode) == (records, None)
  {
    assert TrimLines(lines) == texts;
    DecodeAll(texts, records, decode);
  }

  lemma {:induction false} DecodeAll(texts: seq<string>, records: seq<Record>, decode: string -> Result<Record>)
    requires |texts| == |records|
    requires forall i :: 0 <= i < |texts| ==> decode(texts[i]) == Ok(records[i])
    ensures DecodeTexts(texts, decode) == (records, None)
  {
    if texts != [] {
      DecodeAll(texts[1..], records[1..], decode);
      assert records == [records[0]] + records[1..];
    }
  }

  /**
   * A line holding only a bracket trims to the empty text, so when the
   * decoder rejects that (as `json.loads('')` does) the file yields nothing
   * and raises at that line.
   */
  lemma BareBracketLine(line: string, rest: seq<string>, decode: string -> Result<Record>)
    requires line == "[" || line == "]"
    requires decode([]).Err?
    ensures TrimLine(line) == []
    ensures DecodeLines([line] + rest, decode) == ([], Some(decode([]).error))
  {
    if line == "[" {
      TrimLineFraming("[", [], [], [], []);
      assert "[" + [] + [] + [] + [] == "[";
    } else {
      assert LStripChar("]", '[') == "]";
      assert RStripAscii("]") == "]";
      assert RStripChar("]", ']') == [];
    }
    assert TrimLines([line] + rest)[0] == [];
  }

  // ---------------------------------------------------------------- exporter state

  /** What the exporter is configured with: its parliament, the chamber index and the buffered files. */
  datatype Config = Config(parliament: Parliament, chamberIndex: int, files: Buffer)

  /** The store as the exporter sees it, the memoised chamber (`_chamber`) and the id cache (`_ids`). */
  datatype State = State(store: Store, chamber: Option<Resp>, ids: map<string, string>)

  /** Every cached id and the chamber's id belong to documents of the store. */
  ghost predicate Sound(st: State) {
    (forall k :: k in st.ids ==> st.ids[k] in AllIds(st.store))
    && (st.chamber.Some? ==> st.chamber.value.id in AllIds(st.store))
  }

  /** A store that only grew keeps a sound state sound. */
  lemma SoundAfterGrowth(st: State, store: Store)
    requires Sound(st) && KeepsIds(st.store, store)
    ensures Sound(st.(store := store))
  {
    KeepsIdsAllIds(st.store, store);
  }

  // ---------------------------------------------------------------- remote ids

  /** The cache key: `"%s/%s" % (scheme, identifier)`. */
  function CacheKey(scheme: Value, identifier: Value): string {
    Show(scheme) + "/" + Show(identifier)
  }

  /**
   * `domain, category = scheme.split('/')`: the category, when the scheme has
   * exactly one '/'.
   */
  function Category(scheme: string): (r: Result<string>)
    ensures r.Ok? ==> exists domain :: scheme == domain + "/" + r.value && '/' !in domain && '/' !in r.value
    ensures r.Err? ==> r.error == ValueError
  {
    var parts := SplitChar(scheme, '/');
    if |parts| == 2 then
      assert parts[..1] == [parts[0]];
      Ok(parts[1])
    else Err(ValueError)
  }

  /** A scheme with exactly one '/' has a category: the part after it. */
  lemma CategoryOfScheme(domain: string, category: string)
    requires '/' !in domain && '/' !in category
    ensures Category(domain + "/" + category) == Ok(category)
  {
    SplitCharOnce(domain, category, '/');
  }

  /** Committees, parties and chambers are organizations; any other category names its own collection. */
  function EndpointOf(category: string): string {
    if category in {"committees", "parties", "chamber"} then "organizations" else category
  }

  function IdentifierQuery(scheme: Value, identifier: Value): Query {
    Query([ElemMatch("identifiers", Obj(map["scheme" := scheme, "identifier" := identifier]))], None)
  }

  /**
   * `get_remote_id(scheme, identifier)`: the cached id, or else the id of the
   * first record whose identifiers contain the pair, which is then cached;
   * None when there is none. A scheme that is not a string, or that does not
   * split into exactly two parts, raises.
   */
  function RemoteId(st: State, scheme: Value, identifier: Value): (out: (State, Result<Value>))
    ensures out.0.chamber == st.chamber
    ensures KeepsIds(st.store, out.0.store)
    ensures out.0.store.refused == st.store.refused
    ensures forall e :: Docs(out.0.store, e) == Docs(st.store, e)
    ensures out.1.Ok? ==> out.1.value.Str? || out.1.value.Null?
  {
    var key := CacheKey(scheme, identifier);
    if key in st.ids then (st, Ok(Str(st.ids[key])))
    else if !scheme.Str? then (st, Err(AttributeError))
    else match Category(scheme.s)
      case Err(e) => (st, Err(e))
      case Ok(category) =>
        var q := IdentifierQuery(scheme, identifier);
        var (s1, found) := Find(st.store, EndpointOf(category), q);
        ReadKeepsIds(st.store, s1);
        if found != [] then (st.(store := s1, ids := st.ids[key := found[0].id]), Ok(Str(found[0].id)))
        else (st.(store := s1), Ok(Null))
  }

  /**
   * The cache: a cached key answers without a query; otherwise exactly one
   * query goes to the category's collection, a hit caches and answers the id
   * of the first record found, a miss answers None and caches nothing.
   */
  lemma RemoteIdCache(st: State, scheme: Value, identifier: Value)
    ensures var key := CacheKey(scheme, identifier);
      var out := RemoteId(st, scheme, identifier);
      (key in st.ids ==> out == (st, Ok(Str(st.ids[key]))))
      && (key !in st.ids && scheme.Str? && Category(scheme.s).Ok? ==>
            var endpoint := EndpointOf(Category(scheme.s).value);
            var found := Find(st.store, endpoint, IdentifierQuery(scheme, identifier)).1;
            out.0.store.trace == st.store.trace + [GetCall(endpoint, IdentifierQuery(scheme, identifier))]
            && (found != [] ==> out.1 == Ok(Str(found[0].id)) && out.0.ids == st.ids[key := found[0].id])
            && (found == [] ==> out.1 == Ok(Null) && out.0.ids == st.ids))
      && (key !in st.ids && !scheme.Str? ==> out == (st, Err(AttributeError)))
      && (key !in st.ids && scheme.Str? && Category(scheme.s).Err? ==> out == (st, Err(ValueError)))
  {
    var key := CacheKey(scheme, identifier);
    if key !in st.ids && scheme.Str? && Category(scheme.s).Ok? {
      var endpoint := EndpointOf(Category(scheme.s).value);
      var q := IdentifierQuery(scheme, identifier);
      var (s1, found) := Find(st.store, endpoint, q);
      assert s1.trace == st.store.trace + [GetCall(endpoint, q)];
    }
  }

  /** An answered id was either cached or belongs to a record whose identifiers carry the pair. */
  lemma RemoteIdFound(st: State, scheme: Value, identifier: Value)
    requires CacheKey(scheme, identifier) !in st.ids
    requires RemoteId(st, scheme, identifier).1.Ok? && RemoteId(st, scheme, identifier).1.value.Str?
    ensures var id := RemoteId(st, scheme, identifier).1.value.s;
      var endpoint := EndpointOf(Category(scheme.s).value);
      exists d :: d in Docs(st.store, endpoint) && d.id == id
        && HasElem(Get(d.body, "identifiers"), Obj(map["scheme" := scheme, "identifier" := identifier]))
  {
    var endpoint := EndpointOf(Category(scheme.s).value);
    var q := IdentifierQuery(scheme, identifier);
    var found := Find(st.store, endpoint, q).1;
    assert found[0] in found;
    assert Matches(found[0], q) && Satisfies(found[0], q.where[0]);
  }

  lemma RemoteIdSound(st: State, scheme: Value, identifier: Value)
    requires Sound(st)
    ensures Sound(RemoteId(st, scheme, identifier).0)
  {
    var out := RemoteId(st, scheme, identifier);
    KeepsIdsAllIds(st.store, out.0.store);
    var key := CacheKey(scheme, identifier);
    if key !in st.ids && out.0.ids != st.ids {
      var endpoint := EndpointOf(Category(scheme.s).value);
      var found := Find(st.store, endpoint, IdentifierQuery(scheme, identifier)).1;
      assert found[0] in found;
      assert found[0] in Docs(st.store, endpoint);
      assert endpoint in st.store.collections;
    }
  }

  // ---------------------------------------------------------------- the chamber

  /**
   * `make_chamber(index)`: the Hungarian exporter reconciles its seven
   * chambers in order and answers the one at `index` (Python indexing); the
   * others reconcile their single chamber.
   */
  function MakeChamber(s: Store, p: Parliament, index: int): (out: (Store, Result<Resp>))
    ensures KeepsIds(s, out.0)
    ensures out.0.refused == s.refused
  {
    if p == ParlamentHu then
      var (s1, r) := ReconcileAll(s, "organizations", ChamberRecords(p));
      (s1, if r.Err? then Err(r.error) else PyIndex(r.value, index))
    else GetOrCreate(s, "organizations", ChamberRecords(p)[0])
  }

  /** The chamber answered is a document of the store. */
  lemma MakeChamberStored(s: Store, p: Parliament, index: int)
    requires MakeChamber(s, p, index).1.Ok?
    ensures MakeChamber(s, p, index).1.value.id in AllIds(MakeChamber(s, p, index).0)
  {
    if p == ParlamentHu {
      var rs := ChamberRecords(p);
      ReconcileAllStoresIds(s, "organizations", rs);
    } else {
      GetOrCreateStoresId(s, "organizations", ChamberRecords(p)[0]);
    }
  }

  /**
   * The Hungarian chamber is found by position: every chamber is reconciled
   * before the index is looked at, so an index out of range raises after the
   * seven writes.
   */
  lemma HungarianChamberIndex(s: Store, index: int)
    requires ReconcileAll(s, "organizations", ChamberRecords(ParlamentHu)).1.Ok?
    ensures var (s1, rs) := ReconcileAll(s, "organizations", ChamberRecords(ParlamentHu));
      var out := MakeChamber(s, ParlamentHu, index);
      out.0 == s1
      && (out.1.Ok? <==> -7 <= index < 7)
      && (0 <= index < 7 ==> out.1 == Ok(rs.value[index]))
      && (-7 <= index < 0 ==> out.1 == Ok(rs.value[7 + index]))
  {
    var records := ChamberRecords(ParlamentHu);
    var (s1, rs) := ReconcileAll(s, "organizations", records);
    assert |rs.value| == 7;
    assert MakeChamber(s, ParlamentHu, index) == (s1, PyIndex(rs.value, index));
  }

  /** `get_chamber()`: the memoised chamber, made on first use; a failure leaves nothing memoised. */
  function GetChamber(st: State, cfg: Config): (out: (State, Result<Resp>))
    ensures out.0.ids == st.ids
    ensures KeepsIds(st.store, out.0.store)
  {
    if st.chamber.Some? then (st, Ok(st.chamber.value))
    else
      var (s1, r) := MakeChamber(st.store, cfg.parliament, cfg.chamberIndex);
      (st.(store := s1, chamber := if r.Ok? then Some(r.value) else None), r)
  }

  /**
   * The chamber is made at most once: once `get_chamber` answered, asking
   * again answers the same record and calls nothing.
   */
  lemma ChamberMadeOnce(st: State, cfg: Config)
    requires GetChamber(st, cfg).1.Ok?
    ensures var (st1, r) := GetChamber(st, cfg);
      st1.chamber == Some(r.value) && GetChamber(st1, cfg) == (st1, r)
  {
  }

  lemma GetChamberSound(st: State, cfg: Config)
    requires Sound(st)
    ensures Sound(GetChamber(st, cfg).0)
  {
    var (st1, r) := GetChamber(st, cfg);
    SoundAfterGrowth(st, st1.store);
    if st.chamber.None? && r.Ok? {
      MakeChamberStored(st.store, cfg.parliament, cfg.chamberIndex);
    }
  }

  // ---------------------------------------------------------------- the per-record loops

  /**
   * A loop over records that stops at the first one raising, collecting what
   * each step answered.
   */
  function Fold<R>(st: State, items: seq<Record>, step: (State, Record) -> (State, Result<R>)): (out: (State, Result<seq<R>>))
    ensures out.1.Ok? ==> |out.1.value| == |items|
  {
    if items == [] then (st, Ok([]))
    else
      var (st1, r1) := Fold(st, items[..|items| - 1], step);
      if r1.Err? then (st1, Err(r1.error))
      else
        var (st2, r2) := step(st1, items[|items| - 1]);
        (st2, if r2.Err? then Err(r2.error) else Ok(r1.value + [r2.value]))
  }

  lemma FoldPrefix<R>(st: State, items: seq<Record>, step: (State, Record) -> (State, Result<R>), i: nat)
    requires i < |items|
    ensures var (st1, r1) := Fold(st, items[..i], step);
      var (st2, r2) := step(st1, items[i]);
      Fold(st, items[..i + 1], step)
        == if r1.Err? then (st1, Err(r1.error))
           else (st2, if r2.Err? then Err(r2.error) else Ok(r1.value + [r2.value]))
  {
    assert items[..i + 1][..i] == items[..i];
  }

  lemma {:induction false} FoldStops<R>(st: State, items: seq<Record>, step: (State, Record) -> (State, Result<R>), i: nat)
    requires i <= |items| && Fold(st, items[..i], step).1.Err?
    ensures Fold(st, items, step) == Fold(st, items[..i], step)
    decreases |items| - i
  {
    if i < |items| {
      FoldPrefix(st, items, step, i);
      FoldStops(st, items, step, i + 1);
    } else {
      assert items[..i] == items;
    }
  }

  /** A property of the state that every step keeps holds after the whole loop. */
  lemma {:induction false} FoldInvariant<R>(st: State, items: seq<Record>, step: (State, Record) -> (State, Result<R>),
                                            inv: State -> bool)
    requires inv(st)
    requires forall s: State, x: Record :: inv(s) ==> inv(step(s, x).0)
    ensures inv(Fold(st, items, step).0)
  {
    if items != [] {
      FoldInvariant(st, items[..|items| - 1], step, inv);
    }
  }

  /** When every step sends the record it answers, the loop sends the records it answers, in order. */
  lemma {:induction false} FoldWrites(st: State, items: seq<Record>, step: (State, Record) -> (State, Result<Record>),
                                      endpoint: string)
    requires Fold(st, items, step).1.Ok?
    requires forall s: State, x: Record :: step(s, x).1.Ok? ==>
      Writes(step(s, x).0.store.trace, endpoint) == Writes(s.store.trace, endpoint) + [step(s, x).1.value]
    ensures Writes(Fold(st, items, step).0.store.trace, endpoint)
      == Writes(st.store.trace, endpoint) + Fold(st, items, step).1.value
  {
    if items != [] {
      var (st1, r1) := Fold(st, items[..|items| - 1], step);
      FoldWrites(st, items[..|items| - 1], step, endpoint);
      var (st2, r2) := step(st1, items[|items| - 1]);
      assert Writes(st2.store.trace, endpoint) == Writes(st.store.trace, endpoint) + r1.value + [r2.value];
    }
  }

  /** When every answer of a step relates to its record, every answer of the loop relates to its record. */
  lemma {:induction false} FoldAnswers<R>(st: State, items: seq<Record>, step: (State, Record) -> (State, Result<R>),
                                          ok: (R, Record) -> bool)
    requires Fold(st, items, step).1.Ok?
    requires forall s: State, x: Record :: step(s, x).1.Ok? ==> ok(step(s, x).1.value, x)
    ensures forall k :: 0 <= k < |items| ==> ok(Fold(st, items, step).1.value[k], items[k])
  {
    if items != [] {
      var init := items[..|items| - 1];
      var (st1, r1) := Fold(st, init, step);
      FoldAnswers(st, init, step, ok);
      var (st2, r2) := step(st1, items[|items| - 1]);
      var answers := r1.value + [r2.value];
      forall k | 0 <= k < |items|
        ensures ok(answers[k], items[k])
      {
        if k < |init| {
          assert items[k] == init[k] && answers[k] == r1.value[k];
        }
      }
    }
  }

  /** `item[field]['scheme']` and `item[field]['identifier']`, read in that order. */
  function Reference(item: Record, field: string): (r: Result<(Value, Value)>)
    ensures r.Ok? <==>
      (field in item && item[field].Obj?
       && "scheme" in item[field].fields && "identifier" in item[field].fields)
    ensures r.Ok? ==> r.value == (item[field].fields["scheme"], item[field].fields["identifier"])
  {
    var reference :- Lookup(item, field);
    var scheme :- Field(reference, "scheme");
    var identifier :- Field(reference, "identifier");
    Ok((scheme, identifier))
  }

  /** `get_remote_id` on the reference held in `item[field]`. */
  function Resolve(st: State, item: Record, field: string): (out: (State, Result<Value>))
    ensures out.1.Ok? ==> Reference(item, field).Ok? && (out.1.value.Str? || out.1.value.Null?)
  {
    match Reference(item, field)
    case Err(e) => (st, Err(e))
    case Ok(reference) => RemoteId(st, reference.0, reference.1)
  }

  /**
   * Both references of a membership resolved, the person first, and
   * overwritten with whatever resolution answered (None included).
   */
  function ResolveMembership(st: State, item: Record): (out: (State, Result<Record>)) {
    var (st1, personId) := Resolve(st, item, "person_id");
    if personId.Err? then (st1, Err(personId.error))
    else
      var (st2, organizationId) := Resolve(st1, item, "organization_id");
      if organizationId.Err? then (st2, Err(organizationId.error))
      else (st2, Ok(item["person_id" := personId.value]["organization_id" := organizationId.value]))
  }

  /** One membership of `export_memberships`: its references resolved, then reconciled. It answers the record sent. */
  function MembershipStep(st: State, item: Record): (out: (State, Result<Record>)) {
    var (st1, resolved) := ResolveMembership(st, item);
    if resolved.Err? then (st1, resolved)
    else
      var (s2, r) := GetOrCreate(st1.store, "memberships", resolved.value);
      (st1.(store := s2), if r.Err? then Err(r.error) else resolved)
  }

  /**
   * `filter(lambda x: x['vote_event_id'] == local, votes)`: the votes of one
   * vote event, in file order; a vote without the field raises.
   */
  function FilterVotes(votes: seq<Record>, local: Value): (r: Result<seq<Record>>)
    ensures r.Ok? <==> forall i :: 0 <= i < |votes| ==> "vote_event_id" in votes[i]
    ensures r.Err? ==> r.error == KeyError("vote_event_id")
    ensures r.Ok? ==> forall v :: v in r.value <==> v in votes && v["vote_event_id"] == local
  {
    if votes == [] then Ok([])
    else
      var init := FilterVotes(votes[..|votes| - 1], local);
      var last := votes[|votes| - 1];
      assert votes == votes[..|votes| - 1] + [last];
      if init.Err? then init
      else if "vote_event_id" !in last then Err(KeyError("vote_event_id"))
      else Ok(init.value + if last["vote_event_id"] == local then [last] else [])
  }

  /** One vote before the batch: it points at the remote vote event and its voter is resolved. */
  function SendVote(st: State, vote: Record, eventId: string): (out: (State, Result<Record>)) {
    var pointed := vote["vote_event_id" := Str(eventId)];
    var (st1, voterId) := Resolve(st, pointed, "voter_id");
    (st1, if voterId.Err? then Err(voterId.error) else Ok(pointed["voter_id" := voterId.value]))
  }

  function VoteSender(eventId: string): (State, Record) -> (State, Result<Record>) {
    (st, vote) => SendVote(st, vote, eventId)
  }

  /**
   * The votes of a newly created vote event: each is pointed at it and its
   * voter resolved, then all are sent in one batch, unless there are none.
   * It answers the batch sent (empty when none was).
   */
  function SendBatch(st: State, filtered: seq<Record>, eventId: string): (out: (State, Result<seq<Record>>)) {
    var (st1, sent) := Fold(st, filtered, VoteSender(eventId));
    if sent.Err? then (st1, sent)
    else if filtered == [] then (st1, Ok([]))
    else (st1.(store := BatchPost(st1.store, "votes", sent.value)), sent)
  }

  /**
   * One vote event of `export_votes`: its local identifier is removed and it
   * is reconciled; only when it was created are its votes sent. It answers
   * the batch sent (empty when none was).
   */
  function VoteEvent(st: State, voteEvent: Record, votes: seq<Record>): (out: (State, Result<seq<Record>>)) {
    match Lookup(voteEvent, "identifier")
    case Err(e) => (st, Err(e))
    case Ok(local) =>
      var (s1, r) := GetOrCreate(st.store, "vote-events", voteEvent - {"identifier"});
      var st1 := st.(store := s1);
      if r.Err? then (st1, Err(r.error))
      else match FilterVotes(votes, local)
        case Err(e) => (st1, Err(e))
        case Ok(filtered) =>
          if !r.value.created then (st1, Ok([]))
          else SendBatch(st1, filtered, r.value.id)
  }

  function VoteEventStep(votes: seq<Record>): (State, Record) -> (State, Result<seq<Record>>) {
    (st, voteEvent) => VoteEvent(st, voteEvent, votes)
  }

  // ---------------------------------------------------------------- the phases

  datatype Phase = People | Organizations | Memberships | Motions | Votes

  /** The order `run_export` runs the phases in. */
  const AllPhases: seq<Phase> := [People, Organizations, Memberships, Motions, Votes]

  /** Every record with `field` set to `value`, as the loops of the phases set it before reconciling. */
  function WithField(items: seq<Record>, field: string, value: Value): (r: seq<Record>)
    ensures |r| == |items|
    ensures forall i :: 0 <= i < |items| ==> field in r[i] && r[i][field] == value
    ensures forall i, k :: 0 <= i < |items| && k in items[i] && k != field ==> k in r[i] && r[i][k] == items[i][k]
  {
    seq(|items|, i requires 0 <= i < |items| => items[i][field := value])
  }

  function Outcome<R>(r: Result<R>): Outcome {
    if r.Err? then Fail(r.error) else Pass
  }

  /** Reconciling records one by one until one raises. */
  function ReconcileRecords(st: State, endpoint: string, items: seq<Record>): (out: (State, Outcome)) {
    var (s1, r) := ReconcileAll(st.store, endpoint, items);
    (st.(store := s1), Outcome(r))
  }

  /** `export_people`: the chamber first, then every person. */
  function PeoplePhase(st: State, cfg: Config): (out: (State, Outcome)) {
    var (st1, chamber) := GetChamber(st, cfg);
    if chamber.Err? then (st1, Fail(chamber.error))
    else ReconcileRecords(st1, "people", Load(cfg.files, "people").value)
  }

  /** `export_organizations`: every organization, with the chamber as its parent. */
  function OrganizationsPhase(st: State, cfg: Config): (out: (State, Outcome)) {
    var (st1, chamber) := GetChamber(st, cfg);
    if chamber.Err? then (st1, Fail(chamber.error))
    else ReconcileRecords(st1, "organizations",
      WithField(Load(cfg.files, "organizations").value, "parent_id", Str(chamber.value.id)))
  }

  /** `export_memberships`: every membership, with its references resolved. */
  function MembershipsPhase(st: State, cfg: Config): (out: (State, Outcome)) {
    var (st1, r) := Fold(st, Load(cfg.files, "memberships").value, MembershipStep);
    (st1, Outcome(r))
  }

  /** `export_motions`: every motion, attached to the chamber. */
  function MotionsPhase(st: State, cfg: Config): (out: (State, Outcome)) {
    var (st1, chamber) := GetChamber(st, cfg);
    if chamber.Err? then (st1, Fail(chamber.error))
    else ReconcileRecords(st1, "motions",
      WithField(Load(cfg.files, "motions").value, "organization_id", Str(chamber.value.id)))
  }

  /** `export_votes`: every vote event, each with the votes file read afresh. */
  function VotesPhase(st: State, cfg: Config): (out: (State, Outcome)) {
    var (st1, r) := Fold(st, Load(cfg.files, "vote-events").value, VoteEventStep(Load(cfg.files, "votes").value));
    (st1, Outcome(r))
  }

  function RunPhase(st: State, cfg: Config, phase: Phase): (out: (State, Outcome)) {
    match phase
    case People => PeoplePhase(st, cfg)
    case Organizations => OrganizationsPhase(st, cfg)
    case Memberships => MembershipsPhase(st, cfg)
    case Motions => MotionsPhase(st, cfg)
    case Votes => VotesPhase(st, cfg)
  }

  /**
   * `run_export`: the phases in order, until one raises. It answers the state,
   * how many phases were started and the outcome.
   */
  function RunExport(st: State, cfg: Config): (out: (State, nat, Outcome))
    ensures 1 <= out.1 <= |AllPhases|
    ensures out.1 < |AllPhases| ==> out.2.Fail?
  {
    var (st1, o1) := RunPhase(st, cfg, People);
    if o1.Fail? then (st1, 1, o1) else
    var (st2, o2) := RunPhase(st1, cfg, Organizations);
    if o2.Fail? then (st2, 2, o2) else
    var (st3, o3) := RunPhase(st2, cfg, Memberships);
    if o3.Fail? then (st3, 3, o3) else
    var (st4, o4) := RunPhase(st3, cfg, Motions);
    if o4.Fail? then (st4, 4, o4) else
    var (st5, o5) := RunPhase(st4, cfg, Votes);
    (st5, 5, o5)
  }

  /** Runs a phase under the configuration `cfg`. */
  function Runner(cfg: Config): (State, Phase) -> (State, Outcome) {
    (st, phase) => RunPhase(st, cfg, phase)
  }

  /** `run` runs every phase as `RunPhase` does under `cfg`. */
  ghost predicate RunsPhases(run: (State, Phase) -> (State, Outcome), cfg: Config) {
    forall st: State, phase: Phase {:trigger RunPhase(st, cfg, phase)} :: run(st, phase) == RunPhase(st, cfg, phase)
  }

  /**
   * The phases of `AllPhases` from the `i`-th on, each run by `run`, one at a
   * time, until one raises: the state, how many phases were started in all,
   * and the outcome.
   */
  function RunPhasesWith(run: (State, Phase) -> (State, Outcome), st: State, i: nat): (out: (State, nat, Outcome))
    requires i <= |AllPhases|
    ensures i <= out.1 <= |AllPhases|
    ensures out.1 < |AllPhases| ==> out.2.Fail?
    decreases |AllPhases| - i
  {
    if i == |AllPhases| then (st, i, Pass)
    else
      var (st1, o) := run(st, AllPhases[i]);
      if o.Fail? then (st1, i + 1, o) else RunPhasesWith(run, st1, i + 1)
  }

  /**
   * The phases of `AllPhases` from the `i`-th on, one at a time, until one
   * raises: the state, how many phases were started in all, and the outcome.
   */
  function RunFrom(st: State, cfg: Config, i: nat): (out: (State, nat, Outcome))
    requires i <= |AllPhases|
    ensures i <= out.1 <= |AllPhases|
  {
    RunPhasesWith(Runner(cfg), st, i)
  }

  lemma RunnerRunsPhases(cfg: Config)
    ensures RunsPhases(Runner(cfg), cfg)
  {
  }

  /** A phase that passes hands over to the next ones. */
  lemma RunFromPass(st: State, cfg: Config, i: nat, st1: State)
    requires i < |AllPhases| && RunPhase(st, cfg, AllPhases[i]) == (st1, Pass)
    ensures RunFrom(st, cfg, i) == RunFrom(st1, cfg, i + 1)
  {
  }

  lemma RunFromFail(st: State, cfg: Config, i: nat, st1: State, o: Outcome)
    requires i < |AllPhases| && RunPhase(st, cfg, AllPhases[i]) == (st1, o) && o.Fail?
    ensures RunFrom(st, cfg, i) == (st1, i + 1, o)
  {
  }

  /** `RunPhasesWith` from the first phase, written out phase by phase. */
  lemma RunPhasesWithUnrolled(run: (State, Phase) -> (State, Outcome), st: State)
    ensures RunPhasesWith(run, st, 0) ==
      var (st1, o1) := run(st, People);
      if o1.Fail? then (st1, 1, o1) else
      var (st2, o2) := run(st1, Organizations);
      if o2.Fail? then (st2, 2, o2) else
      var (st3, o3) := run(st2, Memberships);
      if o3.Fail? then (st3, 3, o3) else
      var (st4, o4) := run(st3, Motions);
      if o4.Fail? then (st4, 4, o4) else
      var (st5, o5) := run(st4, Votes);
      (st5, 5, o5)
  {
    assert AllPhases[0] == People && AllPhases[1] == Organizations && AllPhases[2] == Memberships;
    assert AllPhases[3] == Motions && AllPhases[4] == Votes;
    var (st1, o1) := run(st, People);
    if o1.Pass? {
      var (st2, o2) := run(st1, Organizations);
      if o2.Pass? {
        var (st3, o3) := run(st2, Memberships);
        if o3.Pass? {
          var (st4, o4) := run(st3, Motions);
          if o4.Pass? {
            var (st5, o5) := run(st4, Votes);
            assert RunPhasesWith(run, st4, 4) == if o5.Fail? then (st5, 5, o5) else RunPhasesWith(run, st5, 5);
          }
          assert RunPhasesWith(run, st3, 3) == if o4.Fail? then (st4, 4, o4) else RunPhasesWith(run, st4, 4);
        }
        assert RunPhasesWith(run, st2, 2) == if o3.Fail? then (st3, 3, o3) else RunPhasesWith(run, st3, 3);
      }
      assert RunPhasesWith(run, st1, 1) == if o2.Fail? then (st2, 2, o2) else RunPhasesWith(run, st2, 2);
    }
  }

  /** `run_export` is the phases of `AllPhases` run one at a time from the first. */
  lemma RunExportFrom(st: State, cfg: Config)
    ensures RunExport(st, cfg) == RunFrom(st, cfg, 0)
  {
    RunPhasesWithUnrolled(Runner(cfg), st);
  }

  lemma {:induction false} RunFromSound(st: State, cfg: Config, i: nat)
    requires i <= |AllPhases| && Sound(st)
    ensures Sound(RunFrom(st, cfg, i).0)
    decreases |AllPhases| - i
  {
    if i < |AllPhases| {
      PhaseSound(st, cfg, AllPhases[i]);
      var (st1, o) := RunPhase(st, cfg, AllPhases[i]);
      if o.Pass? {
        RunFromSound(st1, cfg, i + 1);
      }
    }
  }

  // ---------------------------------------------------------------- what the calls send

  predicate IsWriteTo(c: Call, endpoint: string) {
    (c.PostCall? || c.PutCall?) && c.endpoint == endpoint
  }

  /** The bodies created or replaced in `endpoint`, in call order. */
  function Writes(t: seq<Call>, endpoint: string): seq<Record> {
    if t == [] then []
    else Writes(t[..|t| - 1], endpoint) + if IsWriteTo(t[|t| - 1], endpoint) then [t[|t| - 1].body] else []
  }

  /** The batches sent to `endpoint`, in call order. */
  function Batches(t: seq<Call>, endpoint: string): seq<seq<Record>> {
    if t == [] then []
    else
      var c := t[|t| - 1];
      Batches(t[..|t| - 1], endpoint) + if c.BatchCall? && c.endpoint == endpoint then [c.bodies] else []
  }

  /** `t` is `t0` followed by reads only. */
  predicate ReadsOnly(t0: seq<Call>, t: seq<Call>) {
    |t0| <= |t| && t[..|t0|] == t0 && forall i :: |t0| <= i < |t| ==> t[i].GetCall?
  }

  lemma {:induction false} ReadsSendNothing(t0: seq<Call>, t: seq<Call>, endpoint: string)
    requires ReadsOnly(t0, t)
    ensures Writes(t, endpoint) == Writes(t0, endpoint)
    ensures Batches(t, endpoint) == Batches(t0, endpoint)
    decreases |t|
  {
    if |t| > |t0| {
      var init := t[..|t| - 1];
      assert init[..|t0|] == t0;
      assert forall i :: |t0| <= i < |init| ==> init[i] == t[i];
      ReadsSendNothing(t0, init, endpoint);
    } else {
      assert t == t[..|t0|];
    }
  }

  lemma ReadsOnlyTransitive(a: seq<Call>, b: seq<Call>, c: seq<Call>)
    requires ReadsOnly(a, b) && ReadsOnly(b, c)
    ensures ReadsOnly(a, c)
  {
    assert c[..|a|] == c[..|b|][..|a|];
    forall i | |a| <= i < |c|
      ensures c[i].GetCall?
    {
      if i < |b| {
        assert c[i] == b[i];
      }
    }
  }

  /** Resolving a reference only reads. */
  lemma RemoteIdReads(st: State, scheme: Value, identifier: Value)
    ensures ReadsOnly(st.store.trace, RemoteId(st, scheme, identifier).0.store.trace)
  {
    RemoteIdCache(st, scheme, identifier);
    var t0 := st.store.trace;
    var t := RemoteId(st, scheme, identifier).0.store.trace;
    if t != t0 {
      assert t[..|t0|] == t0;
    }
  }

  /** A reconciliation sends its record once, as a create or a replace, and sends no batch. */
  lemma GetOrCreateSends(s: Store, endpoint: string, item: Record, e: string)
    requires GetOrCreate(s, endpoint, item).1.Ok?
    ensures var t := GetOrCreate(s, endpoint, item).0.trace;
      Writes(t, endpoint) == Writes(s.trace, endpoint) + [item]
      && Batches(t, e) == Batches(s.trace, e)
  {
    GetOrCreateCalls(s, endpoint, item);
    var t := GetOrCreate(s, endpoint, item).0.trace;
    var n := |s.trace|;
    assert t == s.trace + [t[n], t[n + 1]];
    ReadThenWrite(s.trace, t[n], t[n + 1], endpoint, item, e);
  }

  /** A read and then one write of `item` add `item` to the writes and no batch. */
  lemma ReadThenWrite(t0: seq<Call>, read: Call, write: Call, endpoint: string, item: Record, e: string)
    requires read.GetCall? && IsWriteOf(write, endpoint, item)
    ensures Writes(t0 + [read, write], endpoint) == Writes(t0, endpoint) + [item]
    ensures Batches(t0 + [read, write], e) == Batches(t0, e)
  {
    var t := t0 + [read, write];
    assert t[..|t| - 1] == t0 + [read];
    assert (t0 + [read])[..|t0|] == t0;
  }

  // ---------------------------------------------------------------- memberships

  /**
   * A membership as sent: the fields it was read with, where both references
   * now hold a remote id or None and every other field is unchanged.
   */
  predicate ResolvedFrom(sent: Record, item: Record) {
    sent.Keys == item.Keys
    && (forall k :: k in item && k != "person_id" && k != "organization_id" ==> sent[k] == item[k])
    && "person_id" in sent && (sent["person_id"].Str? || sent["person_id"].Null?)
    && "organization_id" in sent && (sent["organization_id"].Str? || sent["organization_id"].Null?)
  }

  /** Resolving only reads. */
  lemma ResolveReads(st: State, item: Record, field: string)
    ensures ReadsOnly(st.store.trace, Resolve(st, item, field).0.store.trace)
    ensures Resolve(st, item, field).0.chamber == st.chamber
  {
    if Reference(item, field).Ok? {
      var reference := Reference(item, field).value;
      RemoteIdReads(st, reference.0, reference.1);
    }
  }

  lemma ResolveSound(st: State, item: Record, field: string)
    requires Sound(st)
    ensures Sound(Resolve(st, item, field).0)
  {
    if Reference(item, field).Ok? {
      var reference := Reference(item, field).value;
      RemoteIdSound(st, reference.0, reference.1);
    }
  }

  /**
   * A resolved membership has the person reference replaced by what
   * resolving the person answered and the organization reference by what
   * resolving the organization answered next, even when that is None; its
   * other fields are as read.
   */
  lemma MembershipResolved(st: State, item: Record)
    requires ResolveMembership(st, item).1.Ok?
    ensures var (st1, personId) := Resolve(st, item, "person_id");
      var organizationId := Resolve(st1, item, "organization_id").1;
      var sent := ResolveMembership(st, item).1.value;
      ResolvedFrom(sent, item) && personId.Ok? && organizationId.Ok?
      && sent["person_id"] == personId.value && sent["organization_id"] == organizationId.value
  {
    var (st1, personId) := Resolve(st, item, "person_id");
    var (st2, organizationId) := Resolve(st1, item, "organization_id");
    assert personId.Ok? && organizationId.Ok?;
    var sent := item["person_id" := personId.value]["organization_id" := organizationId.value];
    assert ResolveMembership(st, item).1.value == sent;
    assert "person_id" in item by {
      assert Reference(item, "person_id").Ok?;
    }
    assert "organization_id" in item by {
      assert Reference(item, "organization_id").Ok?;
    }
    UpdatesKeepFields(item, "person_id", personId.value, "organization_id", organizationId.value);
  }

  /** Overwriting two fields a record has keeps its fields and every other value. */
  lemma UpdatesKeepFields(item: Record, a: string, va: Value, b: string, vb: Value)
    requires a in item && b in item
    ensures item[a := va][b := vb].Keys == item.Keys
    ensures forall k :: k in item && k != a && k != b ==> item[a := va][b := vb][k] == item[k]
  {
  }

  /** A membership that goes through is sent once, after the reads that resolve it. */
  lemma MembershipStepWrites(st: State, item: Record)
    requires MembershipStep(st, item).1.Ok?
    ensures ResolveMembership(st, item).1 == MembershipStep(st, item).1
    ensures Writes(MembershipStep(st, item).0.store.trace, "memberships")
      == Writes(st.store.trace, "memberships") + [MembershipStep(st, item).1.value]
  {
    var (st1, personId) := Resolve(st, item, "person_id");
    var (st2, organizationId) := Resolve(st1, item, "organization_id");
    var sent := ResolveMembership(st, item).1.value;
    ResolveReads(st, item, "person_id");
    ResolveReads(st1, item, "organization_id");
    ReadsOnlyTransitive(st.store.trace, st1.store.trace, st2.store.trace);
    ReadsSendNothing(st.store.trace, st2.store.trace, "memberships");
    GetOrCreateSends(st2.store, "memberships", sent, "votes");
  }

  /**
   * No membership is skipped: when the loop goes through, every membership of
   * the file is sent, once and in file order, with its references resolved.
   */
  lemma {:induction false} MembershipsAllSent(st: State, items: seq<Record>)
    requires Fold(st, items, MembershipStep).1.Ok?
    ensures var out := Fold(st, items, MembershipStep);
      Writes(out.0.store.trace, "memberships") == Writes(st.store.trace, "memberships") + out.1.value
    ensures var out := Fold(st, items, MembershipStep);
      forall k :: 0 <= k < |items| ==> ResolvedFrom(out.1.value[k], items[k])
  {
    forall s: State, x: Record | MembershipStep(s, x).1.Ok?
      ensures Writes(MembershipStep(s, x).0.store.trace, "memberships")
        == Writes(s.store.trace, "memberships") + [MembershipStep(s, x).1.value]
      ensures ResolvedFrom(MembershipStep(s, x).1.value, x)
    {
      MembershipStepWrites(s, x);
      MembershipResolved(s, x);
    }
    FoldWrites(st, items, MembershipStep, "memberships");
    FoldAnswers(st, items, MembershipStep, ResolvedFrom);
  }



  lemma MembershipStepSound(st: State, item: Record)
    requires Sound(st)
    ensures Sound(MembershipStep(st, item).0)
  {
    var (st1, personId) := Resolve(st, item, "person_id");
    ResolveSound(st, item, "person_id");
    ResolveSound(st1, item, "organization_id");
    var (st2, resolved) := ResolveMembership(st, item);
    if resolved.Ok? {
      SoundAfterGrowth(st2, GetOrCreate(st2.store, "memberships", resolved.value).0);
    }
  }


  // ---------------------------------------------------------------- votes

  /**
   * A vote as sent: the fields it was read with, now pointing at the remote
   * vote event, with its voter resolved to a remote id or None.
   */
  predicate PointedFrom(sent: Record, vote: Record, eventId: string) {
    sent.Keys == vote.Keys + {"vote_event_id"}
    && sent["vote_event_id"] == Str(eventId)
    && "voter_id" in vote && (sent["voter_id"].Str? || sent["voter_id"].Null?)
    && forall k :: k in vote && k != "vote_event_id" && k != "voter_id" ==> sent[k] == vote[k]
  }

  lemma SendVotePoints(st: State, vote: Record, eventId: string)
    requires SendVote(st, vote, eventId).1.Ok?
    ensures PointedFrom(SendVote(st, vote, eventId).1.value, vote, eventId)
  {
    var pointed := vote["vote_event_id" := Str(eventId)];
    var voterId := Resolve(st, pointed, "voter_id").1;
    assert voterId.Ok? && (voterId.value.Str? || voterId.value.Null?);
    assert "voter_id" in pointed by {
      assert Reference(pointed, "voter_id").Ok?;
    }
    var sent := pointed["voter_id" := voterId.value];
    assert SendVote(st, vote, eventId).1.value == sent;
    VotePointed(vote, eventId, voterId.value);
  }

  /** Pointing a vote at its event and overwriting its voter with a remote id. */
  lemma VotePointed(vote: Record, eventId: string, voterId: Value)
    requires "voter_id" in vote && (voterId.Str? || voterId.Null?)
    ensures PointedFrom(vote["vote_event_id" := Str(eventId)]["voter_id" := voterId], vote, eventId)
  {
    var sent := vote["vote_event_id" := Str(eventId)]["voter_id" := voterId];
    assert "voter_id" != "vote_event_id";
    assert sent.Keys == vote.Keys + {"vote_event_id"};
  }

  /** A vote whose voter is not a scheme and identifier pair fails with the lookup's error, before any query. */
  lemma SendVoteUnresolved(st: State, vote: Record, eventId: string)
    requires Reference(vote["vote_event_id" := Str(eventId)], "voter_id").Err?
    ensures SendVote(st, vote, eventId) == (st, Err(Reference(vote["vote_event_id" := Str(eventId)], "voter_id").error))
  {
  }

  lemma SendVoteReads(st: State, vote: Record, eventId: string)
    ensures ReadsOnly(st.store.trace, SendVote(st, vote, eventId).0.store.trace)
    ensures Sound(st) ==> Sound(SendVote(st, vote, eventId).0)
    ensures forall e :: Docs(SendVote(st, vote, eventId).0.store, e) == Docs(st.store, e)
    ensures SendVote(st, vote, eventId).0.store.refused == st.store.refused
  {
    var pointed := vote["vote_event_id" := Str(eventId)];
    ResolveReads(st, pointed, "voter_id");
    if Sound(st) {
      ResolveSound(st, pointed, "voter_id");
    }
    if Reference(pointed, "voter_id").Ok? {
      var reference := Reference(pointed, "voter_id").value;
      assert SendVote(st, vote, eventId).0 == RemoteId(st, reference.0, reference.1).0;
    }
  }

  /**
   * The batch of a created vote event: every vote of the event, in file
   * order, pointed at the remote vote event with its voter resolved, in one
   * batch call, and no call at all when the event has no votes. Nothing else
   * is written.
   */
  lemma SendBatchSends(st: State, filtered: seq<Record>, eventId: string)
    requires SendBatch(st, filtered, eventId).1.Ok?
    ensures var (st1, sent) := SendBatch(st, filtered, eventId);
      |sent.value| == |filtered|
      && (forall k :: 0 <= k < |filtered| ==> PointedFrom(sent.value[k], filtered[k], eventId))
      && Batches(st1.store.trace, "votes")
         == Batches(st.store.trace, "votes") + if filtered == [] then [] else [sent.value]
    ensures forall e :: Writes(SendBatch(st, filtered, eventId).0.store.trace, e) == Writes(st.store.trace, e)
  {
    var (st1, sent) := Fold(st, filtered, VoteSender(eventId));
    FoldVotesPointed(st, filtered, eventId);
    FoldVotesRead(st, filtered, eventId);
    var t0 := st.store.trace;
    ReadsSendNothing(t0, st1.store.trace, "votes");
    forall e
      ensures Writes(SendBatch(st, filtered, eventId).0.store.trace, e) == Writes(t0, e)
    {
      ReadsSendNothing(t0, st1.store.trace, e);
      if filtered != [] {
        BatchCallAppended(st1.store.trace, sent.value, e);
      }
    }
    if filtered != [] {
      BatchCallAppended(st1.store.trace, sent.value, "votes");
    }
  }

  /** Each vote the fold answers is pointed from the vote it was given. */
  lemma FoldVotesPointed(st: State, filtered: seq<Record>, eventId: string)
    requires Fold(st, filtered, VoteSender(eventId)).1.Ok?
    ensures var sent := Fold(st, filtered, VoteSender(eventId)).1.value;
      |sent| == |filtered| && forall k :: 0 <= k < |filtered| ==> PointedFrom(sent[k], filtered[k], eventId)
  {
    var step := VoteSender(eventId);
    forall s: State, x: Record | step(s, x).1.Ok?
      ensures PointedFrom(step(s, x).1.value, x, eventId)
    {
      SendVotePoints(s, x, eventId);
    }
    FoldAnswers(st, filtered, step, (v, x) => PointedFrom(v, x, eventId));
  }

  /** Pointing the votes and resolving their voters only reads. */
  lemma FoldVotesRead(st: State, filtered: seq<Record>, eventId: string)
    ensures ReadsOnly(st.store.trace, Fold(st, filtered, VoteSender(eventId)).0.store.trace)
  {
    var step := VoteSender(eventId);
    var t0 := st.store.trace;
    forall s: State, x: Record | ReadsOnly(t0, s.store.trace)
      ensures ReadsOnly(t0, step(s, x).0.store.trace)
    {
      SendVoteReads(s, x, eventId);
      ReadsOnlyTransitive(t0, s.store.trace, step(s, x).0.store.trace);
    }
    FoldInvariant(st, filtered, step, (s: State) => ReadsOnly(t0, s.store.trace));
  }

  /** A batch call adds its bodies to the batches of its endpoint and writes nothing. */
  lemma BatchCallAppended(t: seq<Call>, bodies: seq<Record>, e: string)
    ensures Writes(t + [BatchCall("votes", bodies)], e) == Writes(t, e)
    ensures Batches(t + [BatchCall("votes", bodies)], "votes") == Batches(t, "votes") + [bodies]
  {
    var t' := t + [BatchCall("votes", bodies)];
    assert t'[..|t'| - 1] == t;
  }

  /** Sending a batch of votes leaves every other collection as it was. */
  lemma SendBatchKeeps(st: State, filtered: seq<Record>, eventId: string)
    ensures forall e :: e != "votes" ==> Docs(SendBatch(st, filtered, eventId).0.store, e) == Docs(st.store, e)
    ensures SendBatch(st, filtered, eventId).0.store.refused == st.store.refused
  {
    var step := VoteSender(eventId);
    forall s: State, x: Record | true
      ensures (forall e :: Docs(step(s, x).0.store, e) == Docs(s.store, e))
        && step(s, x).0.store.refused == s.store.refused
    {
      SendVoteReads(s, x, eventId);
    }
    var st0 := st;
    FoldInvariant(st, filtered, step,
      (s: State) => (forall e :: Docs(s.store, e) == Docs(st0.store, e)) && s.store.refused == st0.store.refused);
  }

  /**
   * One vote event: it is reconciled once, without its local identifier;
   * when it was created, all its votes go out in one batch, each pointed at
   * the new remote vote event; when it already existed, no vote is sent.
   */
  lemma VoteEventSends(st: State, voteEvent: Record, votes: seq<Record>)
    requires VoteEvent(st, voteEvent, votes).1.Ok?
    ensures "identifier" in voteEvent
    ensures var body := voteEvent - {"identifier"};
      var (s1, r) := GetOrCreate(st.store, "vote-events", body);
      var out := VoteEvent(st, voteEvent, votes);
      var sent := out.1.value;
      r.Ok? && FilterVotes(votes, voteEvent["identifier"]).Ok?
      && Writes(out.0.store.trace, "vote-events") == Writes(st.store.trace, "vote-events") + [body]
      && var filtered := FilterVotes(votes, voteEvent["identifier"]).value;
      if r.value.created then
        |sent| == |filtered|
        && (forall k :: 0 <= k < |filtered| ==> PointedFrom(sent[k], filtered[k], r.value.id))
        && Batches(out.0.store.trace, "votes")
           == Batches(st.store.trace, "votes") + if filtered == [] then [] else [sent]
      else
        sent == [] && Batches(out.0.store.trace, "votes") == Batches(st.store.trace, "votes")
  {
    var body := voteEvent - {"identifier"};
    var (s1, r) := GetOrCreate(st.store, "vote-events", body);
    GetOrCreateSends(st.store, "vote-events", body, "votes");
    var local := voteEvent["identifier"];
    var filtered := FilterVotes(votes, local).value;
    if r.value.created {
      SendBatchSends(st.(store := s1), filtered, r.value.id);
    }
  }

  /**
   * Running one vote event twice sends its votes at most once: the second
   * time the event is found, so nothing is sent.
   */
  lemma VoteEventSentOnce(st: State, voteEvent: Record, votes: seq<Record>)
    requires VoteEvent(st, voteEvent, votes).1.Ok?
    ensures var again := VoteEvent(VoteEvent(st, voteEvent, votes).0, voteEvent, votes);
      again.1 == Ok([])
      && |Docs(again.0.store, "vote-events")| == |Docs(VoteEvent(st, voteEvent, votes).0.store, "vote-events")|
  {
    var body := voteEvent - {"identifier"};
    var (s1, r) := GetOrCreate(st.store, "vote-events", body);
    var local := voteEvent["identifier"];
    var filtered := FilterVotes(votes, local).value;
    var later := VoteEvent(st, voteEvent, votes).0;
    if r.value.created {
      SendBatchKeeps(st.(store := s1), filtered, r.value.id);
    }
    assert !IsIdentified("vote-events");
    SecondReconcileUpdates(st.store, later.store, "vote-events", body);
  }

  // ---------------------------------------------------------------- the phases, proved

  /** Reconciling the records of a file: each is read then written, in file order. */
  lemma ReconcileRecordsSends(st: State, endpoint: string, items: seq<Record>)
    requires ReconcileRecords(st, endpoint, items).1.Pass?
    ensures var out := ReconcileRecords(st, endpoint, items).0;
      out.chamber == st.chamber && out.ids == st.ids
      && WritesEach(st.store.trace, out.store.trace, endpoint, items)
  {
    ReconcileAllWritesEach(st.store, endpoint, items);
  }

  lemma ReconcileRecordsSound(st: State, endpoint: string, items: seq<Record>)
    requires Sound(st)
    ensures Sound(ReconcileRecords(st, endpoint, items).0)
  {
    SoundAfterGrowth(st, ReconcileAll(st.store, endpoint, items).0);
  }

  /** `export_people`: with the chamber made or reused, every person of the file is reconciled, in order. */
  lemma PeoplePhaseSends(st: State, cfg: Config)
    requires PeoplePhase(st, cfg).1.Pass?
    ensures var (st1, chamber) := GetChamber(st, cfg);
      var out := PeoplePhase(st, cfg).0;
      chamber.Ok? && out.chamber == Some(chamber.value)
      && WritesEach(st1.store.trace, out.store.trace, "people", Load(cfg.files, "people").value)
  {
    ChamberMadeOnce(st, cfg);
    var st1 := GetChamber(st, cfg).0;
    ReconcileRecordsSends(st1, "people", Load(cfg.files, "people").value);
  }

  /** `export_organizations`: every organization is reconciled, in order, with the chamber as its parent. */
  lemma OrganizationsPhaseSends(st: State, cfg: Config)
    requires OrganizationsPhase(st, cfg).1.Pass?
    ensures var (st1, chamber) := GetChamber(st, cfg);
      var out := OrganizationsPhase(st, cfg).0;
      chamber.Ok? && out.chamber == Some(chamber.value)
      && WritesEach(st1.store.trace, out.store.trace, "organizations",
           WithField(Load(cfg.files, "organizations").value, "parent_id", Str(chamber.value.id)))
  {
    ChamberMadeOnce(st, cfg);
    var (st1, chamber) := GetChamber(st, cfg);
    ReconcileRecordsSends(st1, "organizations",
      WithField(Load(cfg.files, "organizations").value, "parent_id", Str(chamber.value.id)));
  }

  /** `export_motions`: every motion is reconciled, in order, attached to the chamber. */
  lemma MotionsPhaseSends(st: State, cfg: Config)
    requires MotionsPhase(st, cfg).1.Pass?
    ensures var (st1, chamber) := GetChamber(st, cfg);
      var out := MotionsPhase(st, cfg).0;
      chamber.Ok? && out.chamber == Some(chamber.value)
      && WritesEach(st1.store.trace, out.store.trace, "motions",
           WithField(Load(cfg.files, "motions").value, "organization_id", Str(chamber.value.id)))
  {
    ChamberMadeOnce(st, cfg);
    var (st1, chamber) := GetChamber(st, cfg);
    ReconcileRecordsSends(st1, "motions",
      WithField(Load(cfg.files, "motions").value, "organization_id", Str(chamber.value.id)));
  }

  lemma ResolveChamber(st: State, item: Record, field: string)
    ensures Resolve(st, item, field).0.chamber == st.chamber
  {
    if Reference(item, field).Ok? {
      var reference := Reference(item, field).value;
      assert Resolve(st, item, field).0 == RemoteId(st, reference.0, reference.1).0;
    }
  }

  lemma MembershipStepChamber(st: State, item: Record)
    ensures MembershipStep(st, item).0.chamber == st.chamber
  {
    ResolveChamber(st, item, "person_id");
    ResolveChamber(Resolve(st, item, "person_id").0, item, "organization_id");
  }

  lemma VoteEventChamber(st: State, voteEvent: Record, votes: seq<Record>)
    ensures VoteEvent(st, voteEvent, votes).0.chamber == st.chamber
  {
    if "identifier" in voteEvent {
      var (s1, r) := GetOrCreate(st.store, "vote-events", voteEvent - {"identifier"});
      var filtered := FilterVotes(votes, voteEvent["identifier"]);
      if r.Ok? && filtered.Ok? && r.value.created {
        var st1 := st.(store := s1);
        var step := VoteSender(r.value.id);
        forall s: State, x: Record | true
          ensures step(s, x).0.chamber == s.chamber
        {
          ResolveChamber(s, x["vote_event_id" := Str(r.value.id)], "voter_id");
        }
        FoldInvariant(st1, filtered.value, step, (s: State) => s.chamber == st.chamber);
      }
    }
  }

  lemma VoteEventSound(st: State, voteEvent: Record, votes: seq<Record>)
    requires Sound(st)
    ensures Sound(VoteEvent(st, voteEvent, votes).0)
  {
    if "identifier" in voteEvent {
      var (s1, r) := GetOrCreate(st.store, "vote-events", voteEvent - {"identifier"});
      var st1 := st.(store := s1);
      SoundAfterGrowth(st, s1);
      var filtered := FilterVotes(votes, voteEvent["identifier"]);
      if r.Ok? && filtered.Ok? && r.value.created {
        SendBatchSound(st1, filtered.value, r.value.id);
      }
    }
  }

  lemma SendBatchSound(st: State, filtered: seq<Record>, eventId: string)
    requires Sound(st)
    ensures Sound(SendBatch(st, filtered, eventId).0)
  {
    var step := VoteSender(eventId);
    forall s: State, x: Record | Sound(s)
      ensures Sound(step(s, x).0)
    {
      SendVoteReads(s, x, eventId);
    }
    FoldInvariant(st, filtered, step, (s: State) => Sound(s));
    var (st2, sent) := Fold(st, filtered, step);
    if sent.Ok? {
      SoundAfterGrowth(st2, BatchPost(st2.store, "votes", sent.value));
    }
  }

  lemma FoldMembershipsSound(st: State, memberships: seq<Record>)
    requires Sound(st)
    ensures Sound(Fold(st, memberships, MembershipStep).0)
  {
    forall s: State, x: Record | Sound(s)
      ensures Sound(MembershipStep(s, x).0)
    {
      MembershipStepSound(s, x);
    }
    FoldInvariant(st, memberships, MembershipStep, (s: State) => Sound(s));
  }

  lemma FoldVoteEventsSound(st: State, voteEvents: seq<Record>, votes: seq<Record>)
    requires Sound(st)
    ensures Sound(Fold(st, voteEvents, VoteEventStep(votes)).0)
  {
    forall s: State, x: Record | Sound(s)
      ensures Sound(VoteEventStep(votes)(s, x).0)
    {
      VoteEventSound(s, x, votes);
    }
    FoldInvariant(st, voteEvents, VoteEventStep(votes), (s: State) => Sound(s));
  }

  /** Every phase keeps the cached ids and the chamber pointing at stored documents. */
  lemma PhaseSound(st: State, cfg: Config, phase: Phase)
    requires Sound(st)
    ensures Sound(RunPhase(st, cfg, phase).0)
  {
    match phase
    case Memberships =>
      FoldMembershipsSound(st, Load(cfg.files, "memberships").value);
    case Votes =>
      FoldVoteEventsSound(st, Load(cfg.files, "vote-events").value, Load(cfg.files, "votes").value);
    case People => PeoplePhaseSound(st, cfg);
    case Organizations => OrganizationsPhaseSound(st, cfg);
    case Motions => MotionsPhaseSound(st, cfg);
  }

  lemma PeoplePhaseSound(st: State, cfg: Config)
    requires Sound(st)
    ensures Sound(PeoplePhase(st, cfg).0)
  {
    GetChamberSound(st, cfg);
    var (st1, chamber) := GetChamber(st, cfg);
    if chamber.Ok? {
      ReconcileRecordsSound(st1, "people", Load(cfg.files, "people").value);
    }
  }

  lemma OrganizationsPhaseSound(st: State, cfg: Config)
    requires Sound(st)
    ensures Sound(OrganizationsPhase(st, cfg).0)
  {
    GetChamberSound(st, cfg);
    var (st1, chamber) := GetChamber(st, cfg);
    if chamber.Ok? {
      ReconcileRecordsSound(st1, "organizations",
        WithField(Load(cfg.files, "organizations").value, "parent_id", Str(chamber.value.id)));
    }
  }

  lemma MotionsPhaseSound(st: State, cfg: Config)
    requires Sound(st)
    ensures Sound(MotionsPhase(st, cfg).0)
  {
    GetChamberSound(st, cfg);
    var (st1, chamber) := GetChamber(st, cfg);
    if chamber.Ok? {
      ReconcileRecordsSound(st1, "motions",
        WithField(Load(cfg.files, "motions").value, "organization_id", Str(chamber.value.id)));
    }
  }

  /** A whole export keeps the cached ids and the chamber pointing at stored documents. */
  lemma RunExportSound(st: State, cfg: Config)
    requires Sound(st)
    ensures Sound(RunExport(st, cfg).0)
  {
    RunExportFrom(st, cfg);
    RunFromSound(st, cfg, 0);
  }

  /** A phase that does not reconcile under the chamber leaves it as it was. */
  lemma LoopPhaseChamber(st: State, cfg: Config, phase: Phase)
    requires phase == Memberships || phase == Votes
    ensures RunPhase(st, cfg, phase).0.chamber == st.chamber
  {
    if phase == Memberships {
      forall s: State, x: Record | true
        ensures MembershipStep(s, x).0.chamber == s.chamber
      {
        MembershipStepChamber(s, x);
      }
      FoldInvariant(st, Load(cfg.files, "memberships").value, MembershipStep, (s: State) => s.chamber == st.chamber);
    } else {
      var votes := Load(cfg.files, "votes").value;
      forall s: State, x: Record | true
        ensures VoteEventStep(votes)(s, x).0.chamber == s.chamber
      {
        VoteEventChamber(s, x, votes);
      }
      FoldInvariant(st, Load(cfg.files, "vote-events").value, VoteEventStep(votes), (s: State) => s.chamber == st.chamber);
    }
  }

  /**
   * A whole export makes the chamber once, in the people phase: the
   * organizations and the motions are attached to that same chamber, which
   * the exporter still holds at the end.
   */
  lemma RunExportOneChamber(st: State, cfg: Config)
    requires RunExport(st, cfg).2.Pass?
    ensures var (st0, chamber) := GetChamber(st, cfg);
      var st1 := RunPhase(st, cfg, People).0;
      var st3 := RunPhase(RunPhase(st1, cfg, Organizations).0, cfg, Memberships).0;
      chamber.Ok?
      && GetChamber(st1, cfg).1 == chamber
      && GetChamber(st3, cfg).1 == chamber
      && RunExport(st, cfg).0.chamber == Some(chamber.value)
  {
    RunExportPasses(st, cfg);
    var chamber := GetChamber(st, cfg).1;
    PhaseKeepsChamber(st, cfg, People);
    var st1 := RunPhase(st, cfg, People).0;
    PhaseKeepsChamber(st1, cfg, Organizations);
    var st2 := RunPhase(st1, cfg, Organizations).0;
    LoopPhaseChamber(st2, cfg, Memberships);
    var st3 := RunPhase(st2, cfg, Memberships).0;
    PhaseKeepsChamber(st3, cfg, Motions);
    var st4 := RunPhase(st3, cfg, Motions).0;
    LoopPhaseChamber(st4, cfg, Votes);
  }

  /** An export that passes ran every phase, each passing, in order. */
  lemma RunExportPasses(st: State, cfg: Config)
    requires RunExport(st, cfg).2.Pass?
    ensures var st1 := RunPhase(st, cfg, People);
      var st2 := RunPhase(st1.0, cfg, Organizations);
      var st3 := RunPhase(st2.0, cfg, Memberships);
      var st4 := RunPhase(st3.0, cfg, Motions);
      var st5 := RunPhase(st4.0, cfg, Votes);
      st1.1.Pass? && st2.1.Pass? && st3.1.Pass? && st4.1.Pass? && st5.1.Pass?
      && RunExport(st, cfg).0 == st5.0
  {
  }

  /** A phase that reconciles under the chamber leaves the exporter holding the chamber it got. */
  lemma PhaseKeepsChamber(st: State, cfg: Config, phase: Phase)
    requires phase == People || phase == Organizations || phase == Motions
    requires RunPhase(st, cfg, phase).1.Pass?
    ensures GetChamber(st, cfg).1.Ok?
    ensures RunPhase(st, cfg, phase).0.chamber == Some(GetChamber(st, cfg).1.value)
  {
    if phase == People {
      PeoplePhaseSends(st, cfg);
    } else if phase == Organizations {
      OrganizationsPhaseSends(st, cfg);
    } else {
      MotionsPhaseSends(st, cfg);
    }
  }

  // ---------------------------------------------------------------- get_chamber as written

  /**
   * `get_chamber()` as written: it calls `make_chamber()` with no argument,
   * while every exporter's `make_chamber` takes an `index`, so the call
   * raises TypeError whenever no chamber is memoised, and nothing is sent.
   * `GetChamber` is the corrected definition, which passes the configured
   * chamber index.
   */
  function GetChamberAsWritten(st: State): (out: (State, Result<Resp>))
    ensures out.0 == st
    ensures out.1.Ok? <==> st.chamber.Some?
    ensures out.1.Err? ==> out.1.error == TypeError
  {
    if st.chamber.Some? then (st, Ok(st.chamber.value)) else (st, Err(TypeError))
  }

  /**
   * Once a chamber is memoised, `get_chamber` as written answers what the
   * corrected one answers; before, it fails wherever the corrected one makes
   * the chamber.
   */
  lemma GetChamberAsWrittenAgrees(st: State, cfg: Config)
    ensures st.chamber.Some? ==> GetChamberAsWritten(st) == GetChamber(st, cfg)
    ensures st.chamber.None? && GetChamber(st, cfg).1.Ok? ==> GetChamberAsWritten(st).1 != GetChamber(st, cfg).1
  {
  }

  /** The phases that start with `get_chamber`. */
  predicate UsesChamber(phase: Phase) {
    phase == People || phase == Organizations || phase == Motions
  }

  /** A phase as written: one that starts with `get_chamber` raises there when no chamber is memoised. */
  function RunPhaseAsWritten(st: State, cfg: Config, phase: Phase): (out: (State, Outcome)) {
    if UsesChamber(phase) && GetChamberAsWritten(st).1.Err? then (st, Fail(GetChamberAsWritten(st).1.error))
    else RunPhase(st, cfg, phase)
  }

  function RunnerAsWritten(cfg: Config): (State, Phase) -> (State, Outcome) {
    (st, phase) => RunPhaseAsWritten(st, cfg, phase)
  }

  /** `run_export` as written. */
  function RunExportAsWritten(st: State, cfg: Config): (out: (State, nat, Outcome)) {
    RunPhasesWith(RunnerAsWritten(cfg), st, 0)
  }

  /**
   * As written, a phase that starts with `get_chamber` raises TypeError when
   * no chamber is memoised, leaving the store, the id cache and the chamber as
   * they were.
   */
  lemma PhaseRaisesAsWritten(st: State, cfg: Config, phase: Phase)
    requires UsesChamber(phase) && st.chamber.None?
    ensures RunPhaseAsWritten(st, cfg, phase) == (st, Fail(TypeError))
  {
    assert GetChamberAsWritten(st).1 == Err(TypeError);
  }

  /**
   * As written, an export from an exporter with no chamber (as the
   * constructor leaves it) raises TypeError in its first phase: no chamber is
   * made, no person is sent and the state is unchanged.
   */
  lemma RunExportRaisesAsWritten(st: State, cfg: Config)
    requires st.chamber.None?
    ensures RunExportAsWritten(st, cfg) == (st, 1, Fail(TypeError))
  {
    RunPhasesWithUnrolled(RunnerAsWritten(cfg), st);
    PhaseRaisesAsWritten(st, cfg, People);
  }

  /** With a chamber memoised, every phase keeps it. */
  lemma PhaseKeepsMemoisedChamber(st: State, cfg: Config, phase: Phase)
    requires st.chamber.Some?
    ensures RunPhase(st, cfg, phase).0.chamber == st.chamber
  {
    if UsesChamber(phase) {
      assert GetChamber(st, cfg) == (st, Ok(st.chamber.value));
    } else {
      LoopPhaseChamber(st, cfg, phase);
    }
  }

  /**
   * With a chamber memoised, the phases as written run exactly as the
   * corrected ones: the two definitions differ only in how the first chamber
   * is made.
   */
  lemma {:induction false} RunAsWrittenAgrees(st: State, cfg: Config, i: nat)
    requires i <= |AllPhases| && st.chamber.Some?
    ensures RunPhasesWith(RunnerAsWritten(cfg), st, i) == RunPhasesWith(Runner(cfg), st, i)
    decreases |AllPhases| - i
  {
    if i < |AllPhases| {
      var phase := AllPhases[i];
      GetChamberAsWrittenAgrees(st, cfg);
      assert RunPhaseAsWritten(st, cfg, phase) == RunPhase(st, cfg, phase);
      PhaseKeepsMemoisedChamber(st, cfg, phase);
      var (st1, o) := RunPhase(st, cfg, phase);
      if o.Pass? {
        RunAsWrittenAgrees(st1, cfg, i + 1);
      }
    }
  }
}
