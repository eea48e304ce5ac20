/**
 * The per-parliament parts of the exporter: the chamber records each
 * parliament reconciles first, and the speech export of the Montenegrin
 * parliament, which matches speakers named in transcripts to people by a
 * normalised name and numbers the speeches of a transcript.
 */
module Parliaments {
  import opened Text
  import opened Records

  datatype Parliament = SkupstinaMe | ParlamentHu | SejmPl

  /** The `domain` attribute: prefix of every identifier scheme of the parliament. */
  function Domain(p: Parliament): string {
    match p
    case SkupstinaMe => "skupstina.me"
    case ParlamentHu => "parlament.hu"
    case SejmPl => "mojepanstwo.pl"
  }

  function IdentifierValue(identifier: string, scheme: string): Value {
    Obj(map["identifier" := Str(identifier), "scheme" := Str(scheme)])
  }

  /** A chamber as listed in the source, before `classification` is set. */
  function Chamber(p: Parliament, identifier: string, name: string): Record {
    map["identifiers" := Arr([IdentifierValue(identifier, Domain(p) + "/chamber")]), "name" := Str(name)]
  }

  function Classified(r: Record): Record {
    r["classification" := Str("chamber")]
  }

  /** The seven Hungarian parliamentary terms, newest first: identifier and name. */
  const HungarianTerms: seq<(string, string)> :=
    [ ("40", "Orsz\U{00E1}ggy\U{0171}l\U{00E9}s 2014 - "),
      ("39", "Orsz\U{00E1}ggy\U{0171}l\U{00E9}s 2010 - 2014"),
      ("38", "Orsz\U{00E1}ggy\U{0171}l\U{00E9}s 2006 - 2010"),
      ("37", "Orsz\U{00E1}ggy\U{0171}l\U{00E9}s 2002 - 2006"),
      ("36", "Orsz\U{00E1}ggy\U{0171}l\U{00E9}s 1998 - 2002"),
      ("35", "Orsz\U{00E1}ggy\U{0171}l\U{00E9}s 1994 - 98"),
      ("34", "Orsz\U{00E1}ggy\U{0171}l\U{00E9}s 1990 - 94") ]

  /** The Hungarian chambers, one per term. */
  function HungarianChambers(): (hs: seq<Record>)
    ensures |hs| == |HungarianTerms|
    ensures forall i :: 0 <= i < |hs| ==> hs[i] == Chamber(ParlamentHu, HungarianTerms[i].0, HungarianTerms[i].1)
  {
    seq(|HungarianTerms|, i requires 0 <= i < |HungarianTerms| =>
      Chamber(ParlamentHu, HungarianTerms[i].0, HungarianTerms[i].1))
  }

  /** A chamber record: classified as a chamber, with one identifier in the `<domain>/chamber` scheme. */
  predicate IsChamberRecord(r: Record, domain: string) {
    "classification" in r && r["classification"] == Str("chamber")
    && "identifiers" in r && r["identifiers"].Arr? && |r["identifiers"].items| == 1
    && r["identifiers"].items[0].Obj?
    && "scheme" in r["identifiers"].items[0].fields
    && r["identifiers"].items[0].fields["scheme"] == Str(domain + "/chamber")
  }

  /**
   * The records `make_chamber` reconciles, in order: one for the Montenegrin and
   * the Polish parliament, the seven Hungarian terms (each classified by the
   * loop) for the Hungarian one.
   */
  function ChamberRecords(p: Parliament): (rs: seq<Record>)
    ensures forall i :: 0 <= i < |rs| ==> IsChamberRecord(rs[i], Domain(p))
    ensures p == ParlamentHu ==> |rs| == 7
    ensures p != ParlamentHu ==> |rs| == 1
  {
    match p
    case SkupstinaMe =>
      ClassifiedChamber(p, "25", "Skup\U{0161}tina Crne Gore 2012 - 2015");
      [Classified(Chamber(p, "25", "Skup\U{0161}tina Crne Gore 2012 - 2015"))]
    case SejmPl =>
      ClassifiedChamber(p, "7", "Sejm 2011 - ");
      [Classified(Chamber(p, "7", "Sejm 2011 - "))]
    case ParlamentHu =>
      var hs := HungarianChambers();
      assert forall i :: 0 <= i < |hs| ==> IsChamberRecord(Classified(hs[i]), Domain(p)) by {
        forall i | 0 <= i < |hs| ensures IsChamberRecord(Classified(hs[i]), Domain(p)) {
          ClassifiedChamber(p, HungarianTerms[i].0, HungarianTerms[i].1);
        }
      }
      seq(|hs|, i requires 0 <= i < |hs| => Classified(hs[i]))
  }

  /** Every classified chamber is a chamber record of its parliament. */
  lemma ClassifiedChamber(p: Parliament, identifier: string, name: string)
    ensures IsChamberRecord(Classified(Chamber(p, identifier, name)), Domain(p))
  {
    assert "classification" != "identifiers" by { assert "classification"[1] != "identifiers"[1]; }
  }

  // ---------------------------------------------------------------- name normalisation

  /** The alternatives of the title pattern, in pattern order. */
  const TitleTokens: seq<string> := ["dr ", "Dr ", "mr ", "doc. ", "Prof. ", "Prim."]

  /**
   * The alternatives of the speaker-prefix pattern as the source compiles them.
   * The pattern is a raw literal continued over a line break with a backslash,
   * which keeps the backslash and the newline: the third alternative begins
   * with a newline.
   */
  const SpeakerPrefixes: seq<string> :=
    ["pred\U{015B}edavaju\U{0107}i ", "pred\U{015B}ednik ", "\ngeneralni sekretar "]

  /** The speaker prefixes as the pattern was evidently meant to read. */
  const IntendedSpeakerPrefixes: seq<string> :=
    ["pred\U{015B}edavaju\U{0107}i ", "pred\U{015B}ednik ", "generalni sekretar "]

  /** The first non-empty alternative that `s` starts with, in pattern order. */
  function FirstAlternative(s: string, alts: seq<string>): (r: Option<string>)
    ensures r.Some? ==> r.value in alts && r.value != [] && StartsWith(s, r.value)
    ensures r.None? ==> forall a :: a in alts && a != [] ==> !StartsWith(s, a)
  {
    if alts == [] then None
    else if alts[0] != [] && StartsWith(s, alts[0]) then Some(alts[0])
    else FirstAlternative(s, alts[1..])
  }

  /** No alternative occurs anywhere in `s`. */
  predicate FreeOf(s: string, alts: seq<string>) {
    forall i :: 0 <= i <= |s| ==> FirstAlternative(s[i..], alts).None?
  }

  /**
   * `re.sub(alternation, '', s)` for an alternation of literals: scanning left
   * to right, each occurrence is removed and the scan resumes after it.
   */
  function RemoveAll(s: string, alts: seq<string>): (r: string)
    ensures |r| <= |s|
    ensures forall c :: c in r ==> c in s
    ensures FreeOf(s, alts) ==> r == s
    decreases |s|
  {
    if s == [] then []
    else match FirstAlternative(s, alts)
      case Some(a) =>
        var rest := RemoveAll(s[|a|..], alts);
        assert !FreeOf(s, alts) by {
          assert s[0..] == s;
        }
        assert forall c :: c in rest ==> c in s by {
          forall c | c in rest ensures c in s {
            var i :| 0 <= i < |s[|a|..]| && s[|a|..][i] == c;
            assert s[|a| + i] == c;
          }
        }
        rest
      case None =>
        var rest := RemoveAll(s[1..], alts);
        assert FreeOf(s, alts) ==> FreeOf(s[1..], alts) by {
          if FreeOf(s, alts) {
            forall i | 0 <= i <= |s[1..]| ensures FirstAlternative(s[1..][i..], alts).None? {
              assert s[1..][i..] == s[i + 1..];
            }
          }
        }
        assert forall c :: c in rest ==> c in s by {
          forall c | c in rest ensures c in s {
            var i :| 0 <= i < |s[1..]| && s[1..][i] == c;
            assert s[1 + i] == c;
          }
        }
        assert FreeOf(s, alts) ==> [s[0]] + s[1..] == s;
        [s[0]] + rest
  }

  /** No two whitespace characters are adjacent. */
  predicate NoDoubleSpace(s: string) {
    forall i :: 0 <= i < |s| - 1 ==> !(IsRegexSpace(s[i]) && IsRegexSpace(s[i + 1]))
  }

  /** The number of whitespace characters `s` starts with. */
  function SpaceRun(s: string): (k: nat)
    ensures k <= |s|
    ensures forall i :: 0 <= i < k ==> IsRegexSpace(s[i])
    ensures k < |s| ==> !IsRegexSpace(s[k])
  {
    if s != [] && IsRegexSpace(s[0]) then 1 + SpaceRun(s[1..]) else 0
  }

  /**
   * `re.sub(r'\s{2,}', ' ', s)`: every run of two or more whitespace
   * characters becomes one space; a lone whitespace character stays.
   */
  function CollapseSpaces(s: string): (r: string)
    ensures NoDoubleSpace(r)
    ensures |r| <= |s|
    ensures (s == [] || !IsRegexSpace(s[0])) ==> (r == [] || !IsRegexSpace(r[0]))
    ensures forall c :: c in r ==> c in s || c == ' '
    ensures NoDoubleSpace(s) ==> r == s
    decreases |s|
  {
    if s == [] then []
    else
      var k := SpaceRun(s);
      if k >= 2 then
        var rest := CollapseSpaces(s[k..]);
        CharsOfSuffix(s, k, rest);
        assert !NoDoubleSpace(s) by { assert IsRegexSpace(s[0]) && IsRegexSpace(s[1]); }
        " " + rest
      else
        var rest := CollapseSpaces(s[1..]);
        CharsOfSuffix(s, 1, rest);
        NoDoubleSpaceTail(s);
        [s[0]] + rest
  }

  /** What comes from a suffix of `s`, or is a space, comes from `s` or is a space. */
  lemma CharsOfSuffix(s: string, k: nat, rest: string)
    requires k <= |s| && forall c :: c in rest ==> c in s[k..] || c == ' '
    ensures forall c :: c in rest ==> c in s || c == ' '
  {
    forall c | c in rest && c != ' ' ensures c in s {
      var i :| 0 <= i < |s[k..]| && s[k..][i] == c;
      assert s[k + i] == c;
    }
  }

  lemma NoDoubleSpaceTail(s: string)
    requires s != []
    ensures NoDoubleSpace(s) ==> NoDoubleSpace(s[1..]) && [s[0]] + s[1..] == s
  {
    if NoDoubleSpace(s) {
      forall i | 0 <= i < |s[1..]| - 1
        ensures !(IsRegexSpace(s[1..][i]) && IsRegexSpace(s[1..][i + 1]))
      {
        assert s[1..][i] == s[i + 1] && s[1..][i + 1] == s[i + 2];
      }
    }
  }

  /** Lower-casing keeps whitespace where it was: it only maps letters to letters. */
  lemma LowerKeepsSpacing(s: string)
    requires NoDoubleSpace(s)
    ensures NoDoubleSpace(Lower(s))
  {
    var r := Lower(s);
    forall i | 0 <= i < |r| - 1
      ensures !(IsRegexSpace(r[i]) && IsRegexSpace(r[i + 1]))
    {
      assert IsRegexSpace(r[i]) ==> IsRegexSpace(s[i]);
      assert IsRegexSpace(r[i + 1]) ==> IsRegexSpace(s[i + 1]);
    }
  }

  /** A name normalised the way the people index of the speech export keys it. */
  predicate Normalised(s: string) {
    '-' !in s && NoDoubleSpace(s) && forall i :: 0 <= i < |s| ==> !HasLower(s[i])
  }

  /**
   * A person's name as the speech export keys it: titles removed, '-' made a
   * space, whitespace runs collapsed, then lower-cased.
   */
  function NormaliseName(name: string): (r: string)
    ensures Normalised(r)
    ensures |r| <= |name|
  {
    var collapsed := CollapseSpaces(ReplaceChar(RemoveAll(name, TitleTokens), '-', ' '));
    LowerKeepsSpacing(collapsed);
    var r := Lower(collapsed);
    assert '-' !in r by {
      forall i | 0 <= i < |r| ensures r[i] != '-' {
        assert collapsed[i] in collapsed;
      }
    }
    r
  }

  /**
   * A speaker named in a transcript, normalised for matching: lower-cased,
   * the given office names removed, '-' made a space, whitespace runs collapsed.
   */
  function StripCreator(creator: string, prefixes: seq<string>): (r: string)
    ensures Normalised(r)
    ensures |r| <= |creator|
  {
    var removed := RemoveAll(Lower(creator), prefixes);
    var replaced := ReplaceChar(removed, '-', ' ');
    var r := CollapseSpaces(replaced);
    assert forall i :: 0 <= i < |r| ==> !HasLower(r[i]) by {
      forall i | 0 <= i < |r| ensures !HasLower(r[i]) {
        assert r[i] in r;
        if r[i] != ' ' {
          var j :| 0 <= j < |replaced| && replaced[j] == r[i];
          if removed[j] != '-' {
            assert removed[j] in removed;
            var k :| 0 <= k < |creator| && Lower(creator)[k] == removed[j];
          }
        }
      }
    }
    assert '-' !in r by {
      forall i | 0 <= i < |r| ensures r[i] != '-' {
        assert r[i] in r;
      }
    }
    r
  }

  /** The speaker normalisation as the source compiles its prefix pattern. */
  function NormaliseCreatorAsWritten(creator: string): (r: string)
    ensures Normalised(r)
  {
    StripCreator(creator, SpeakerPrefixes)
  }

  /** The speaker normalisation with the office names it was meant to remove. */
  function NormaliseCreator(creator: string): (r: string)
    ensures Normalised(r)
  {
    StripCreator(creator, IntendedSpeakerPrefixes)
  }

  /** An alternation none of whose alternatives' first characters occurs in `s` never matches in it. */
  lemma FreeOfFirstChars(s: string, alts: seq<string>)
    requires forall i, j :: 0 <= i < |s| && 0 <= j < |alts| && alts[j] != [] ==> s[i] != alts[j][0]
    ensures FreeOf(s, alts)
  {
    forall i | 0 <= i <= |s|
      ensures FirstAlternative(s[i..], alts).None?
    {
      if i < |s| {
        forall j | 0 <= j < |alts| && alts[j] != []
          ensures !StartsWith(s[i..], alts[j])
        {
          assert s[i..][0] == s[i];
        }
      }
    }
  }

  /** A string that is already normalised: lower case, single spaces, no '-'. */
  lemma NormalisedPassesThrough(s: string, prefixes: seq<string>)
    requires Normalised(s) && FreeOf(s, prefixes)
    ensures StripCreator(s, prefixes) == s
  {
    assert Lower(s) == s;
    assert ReplaceChar(s, '-', ' ') == s;
  }

  const SecretaryLine: string := "generalni sekretar ana"

  /** Lower-case ASCII words separated by single spaces are already normalised. */
  lemma PlainWordsNormalised(s: string)
    requires forall i :: 0 <= i < |s| ==> 'a' <= s[i] <= 'z' || s[i] == ' '
    requires forall i :: 0 <= i < |s| - 1 ==> s[i] != ' ' || s[i + 1] != ' '
    ensures Normalised(s)
  {
  }

  /**
   * A secretary-general in a transcript keeps the title as written: the
   * pattern only removes it after a line break, so the name cannot match a
   * person's normalised name.
   */
  lemma SecretaryTitleKeptAsWritten()
    ensures NormaliseCreatorAsWritten(SecretaryLine) == SecretaryLine
  {
    PlainWordsNormalised(SecretaryLine);
    assert SpeakerPrefixes[0][0] == 'p' && SpeakerPrefixes[1][0] == 'p' && SpeakerPrefixes[2][0] == '\n';
    SecretaryLineLetters();
    FreeOfFirstChars(SecretaryLine, SpeakerPrefixes);
    NormalisedPassesThrough(SecretaryLine, SpeakerPrefixes);
  }

  lemma SecretaryLineLetters()
    ensures forall i :: 0 <= i < |SecretaryLine| ==> SecretaryLine[i] != 'p' && SecretaryLine[i] != '\n'
  {
    assert forall i :: 0 <= i < |SecretaryLine| ==> SecretaryLine[i] != 'p' && SecretaryLine[i] != '\n';
  }

  /** With the intended prefixes the title goes, leaving the bare name. */
  lemma SecretaryTitleRemoved()
    ensures NormaliseCreator(SecretaryLine) == "ana"
  {
    var line := SecretaryLine;
    PlainWordsNormalised("ana");
    PlainWordsNormalised(line);
    SecretaryPrefixRemoved();
    StripNormalised(line, IntendedSpeakerPrefixes, "ana");
  }

  /** On a normalised string, the speaker normalisation is only the prefix removal. */
  lemma StripNormalised(s: string, prefixes: seq<string>, rest: string)
    requires Normalised(s) && RemoveAll(s, prefixes) == rest && Normalised(rest)
    ensures StripCreator(s, prefixes) == rest
  {
    assert Lower(s) == s;
    assert ReplaceChar(rest, '-', ' ') == rest;
  }

  lemma SecretaryPrefixRemoved()
    ensures RemoveAll(SecretaryLine, IntendedSpeakerPrefixes) == "ana"
  {
    var s := SecretaryLine;
    var alts := IntendedSpeakerPrefixes;
    assert s[..19] == "generalni sekretar ";
    assert !StartsWith(s, alts[0]) by { assert s[0] != alts[0][0]; }
    assert !StartsWith(s, alts[1]) by { assert s[0] != alts[1][0]; }
    assert alts[1..][1..] == ["generalni sekretar "];
    assert FirstAlternative(s, alts[1..][1..]) == Some("generalni sekretar ");
    assert FirstAlternative(s, alts) == Some("generalni sekretar ");
    assert s[19..] == "ana";
    assert alts[0][0] == 'p' && alts[1][0] == 'p' && alts[2][0] == 'g';
    FreeOfFirstChars("ana", alts);
  }

  // ---------------------------------------------------------------- speeches

  /** A person as the remote store lists it. */
  datatype RemotePerson = RemotePerson(name: string, id: string)

  /** One speech as the transcript parser yields it. */
  datatype ParsedSpeech = ParsedSpeech(text: string, creator: string)

  /**
   * A reconcile request of the speech export: the record and, for speeches
   * cut from a transcript, the where-keys passed along with it.
   */
  datatype Request = Request(endpoint: string, body: Record, whereKeys: Option<seq<string>>)

  /** Each person's normalised name with their remote id, in listing order. */
  function Keyed(persons: seq<RemotePerson>): (r: seq<(string, string)>)
    ensures |r| == |persons|
    ensures forall i :: 0 <= i < |persons| ==> r[i] == (NormaliseName(persons[i].name), persons[i].id)
  {
    seq(|persons|, i requires 0 <= i < |persons| => (NormaliseName(persons[i].name), persons[i].id))
  }

  /** Name to remote id; a later entry with the same name wins. */
  function IndexOf(entries: seq<(string, string)>): map<string, string> {
    if entries == [] then map[]
    else IndexOf(entries[..|entries| - 1])[entries[|entries| - 1].0 := entries[|entries| - 1].1]
  }

  function PeopleIndex(persons: seq<RemotePerson>): map<string, string> {
    IndexOf(Keyed(persons))
  }

  /** The position of the last entry named `key`, or -1. */
  function LastNamed(entries: seq<(string, string)>, key: string): (i: int)
    ensures -1 <= i < |entries|
    ensures i >= 0 ==> entries[i].0 == key
    ensures forall j :: i < j < |entries| ==> entries[j].0 != key
  {
    if entries == [] then -1
    else if entries[|entries| - 1].0 == key then |entries| - 1
    else LastNamed(entries[..|entries| - 1], key)
  }

  /**
   * The index holds exactly the names of the entries, each mapped to the id of
   * the last entry with that name.
   */
  lemma {:induction false} IndexOfLast(entries: seq<(string, string)>)
    ensures forall key :: key in IndexOf(entries) <==> LastNamed(entries, key) >= 0
    ensures forall key :: key in IndexOf(entries) ==> IndexOf(entries)[key] == entries[LastNamed(entries, key)].1
  {
    if entries != [] {
      var init := entries[..|entries| - 1];
      IndexOfLast(init);
      forall key | key != entries[|entries| - 1].0
        ensures LastNamed(entries, key) == LastNamed(init, key)
        ensures LastNamed(init, key) >= 0 ==> entries[LastNamed(init, key)] == init[LastNamed(init, key)]
      {
      }
    }
  }

  /**
   * The people index holds exactly the normalised names of the people, each
   * mapped to the id of the last person with that name.
   */
  lemma PeopleIndexLast(persons: seq<RemotePerson>, key: string)
    ensures key in PeopleIndex(persons) <==> exists i :: 0 <= i < |persons| && NormaliseName(persons[i].name) == key
    ensures key in PeopleIndex(persons) ==>
      var i := LastNamed(Keyed(persons), key);
      0 <= i < |persons| && PeopleIndex(persons)[key] == persons[i].id
      && NormaliseName(persons[i].name) == key
      && forall j :: i < j < |persons| ==> NormaliseName(persons[j].name) != key
  {
    var entries := Keyed(persons);
    IndexOfLast(entries);
    var i := LastNamed(entries, key);
    if exists i :: 0 <= i < |persons| && NormaliseName(persons[i].name) == key {
      var j :| 0 <= j < |persons| && NormaliseName(persons[j].name) == key;
      assert entries[j].0 == key;
    }
    if i >= 0 {
      forall j | i < j < |persons| ensures NormaliseName(persons[j].name) != key {
        assert entries[j].0 != key;
      }
    }
  }

  /** `speech['sources'][0]['url']`, which must be a string for `endswith`. */
  function SourceUrl(speech: Record): Result<string> {
    var sources :- Lookup(speech, "sources");
    var source :- First(sources);
    var url :- Field(source, "url");
    if url.Str? then Ok(url.s) else Err(AttributeError)
  }

  /** The copy of the speech for the `n`-th (from 0) parsed part of its transcript. */
  function TextSpeech(speech: Record, part: ParsedSpeech, n: nat, people: map<string, string>): Record {
    var copy := speech["text" := Str(part.text)]["position" := Num(n + 1)]["type" := Str("speech")];
    var creator := NormaliseCreatorAsWritten(part.creator);
    if creator in people then copy["creator_id" := Str(people[creator])] else copy
  }

  /**
   * A transcript part is numbered from 1, typed 'speech' and carries the parsed
   * text; it is linked to the speaker exactly when the normalised speaker is in
   * the index (otherwise the speech's own `creator_id`, if any, stays); the
   * speech's other fields are copied.
   */
  lemma TextSpeechFields(speech: Record, part: ParsedSpeech, n: nat, people: map<string, string>)
    ensures var r := TextSpeech(speech, part, n, people);
      "position" in r && "type" in r && "text" in r
      && r["position"] == Num(n + 1) && r["type"] == Str("speech") && r["text"] == Str(part.text)
      && (NormaliseCreatorAsWritten(part.creator) in people ==>
            "creator_id" in r && r["creator_id"] == Str(people[NormaliseCreatorAsWritten(part.creator)]))
      && (NormaliseCreatorAsWritten(part.creator) !in people ==> Get(r, "creator_id") == Get(speech, "creator_id"))
      && forall k :: k in speech && k !in {"position", "type", "text", "creator_id"} ==> k in r && r[k] == speech[k]
  {
  }

  const TranscriptKeys: seq<string> := ["event_id", "position"]

  /** The requests for the parts of one transcript, in parse order. */
  function TranscriptRequests(speech: Record, parts: seq<ParsedSpeech>, people: map<string, string>): (rs: seq<Request>)
    ensures |rs| == |parts|
    ensures forall n :: 0 <= n < |parts| ==>
      rs[n] == Request("speeches", TextSpeech(speech, parts[n], n, people), Some(TranscriptKeys))
  {
    seq(|parts|, n requires 0 <= n < |parts| =>
      Request("speeches", TextSpeech(speech, parts[n], n, people), Some(TranscriptKeys)))
  }

  /**
   * The requests one speech gives, after its `event_id` was replaced by the
   * remote id of its event: one per parsed part for a transcript in PDF form,
   * else the speech itself. A local event id with no remote id raises.
   */
  function SpeechRequests(speech: Record, people: map<string, string>, eventsIds: map<Value, Value>,
                          pdf: string -> seq<ParsedSpeech>): (r: Result<seq<Request>>)
    ensures Get(speech, "event_id") !in eventsIds ==> r.Err?
    ensures r.Ok? ==> forall i :: 0 <= i < |r.value| ==>
      r.value[i].endpoint == "speeches" && "event_id" in r.value[i].body
      && r.value[i].body["event_id"] == eventsIds[Get(speech, "event_id")]
  {
    var session := Get(speech, "event_id");
    if session !in eventsIds then Err(KeyError(Show(session)))
    else
      var linked := speech["event_id" := eventsIds[session]];
      var url :- SourceUrl(linked);
      if EndsWith(url, ".pdf") then Ok(TranscriptRequests(linked, pdf(url), people))
      else Ok([Request("speeches", linked, None)])
  }

  /** The requests of all speeches in order, up to the first speech that raises. */
  function SpeechPlan(speeches: seq<Record>, people: map<string, string>, eventsIds: map<Value, Value>,
                      pdf: string -> seq<ParsedSpeech>): (seq<Request>, Outcome)
  {
    if speeches == [] then ([], Pass)
    else
      var before := SpeechPlan(speeches[..|speeches| - 1], people, eventsIds, pdf);
      if before.1.Fail? then before
      else match SpeechRequests(speeches[|speeches| - 1], people, eventsIds, pdf)
        case Err(e) => (before.0, Fail(e))
        case Ok(rs) => (before.0 + rs, Pass)
  }

  /**
   * A speech whose source is not a PDF is sent as one request, unchanged apart
   * from its event id.
   */
  lemma PlainSpeechUnchanged(speech: Record, people: map<string, string>, eventsIds: map<Value, Value>,
                             pdf: string -> seq<ParsedSpeech>)
    requires Get(speech, "event_id") in eventsIds
    requires SourceUrl(speech).Ok? && !EndsWith(SourceUrl(speech).value, ".pdf")
    ensures SpeechRequests(speech, people, eventsIds, pdf)
      == Ok([Request("speeches", speech["event_id" := eventsIds[Get(speech, "event_id")]], None)])
  {
    var linked := speech["event_id" := eventsIds[Get(speech, "event_id")]];
    assert linked["sources"] == speech["sources"];
    assert SourceUrl(linked) == SourceUrl(speech);
  }

  /**
   * The plan is the requests of each speech in order, concatenated, when no
   * speech raises.
   */
  lemma {:induction false} SpeechPlanConcat(speeches: seq<Record>, people: map<string, string>,
                                            eventsIds: map<Value, Value>, pdf: string -> seq<ParsedSpeech>)
    requires forall j :: 0 <= j < |speeches| ==> SpeechRequests(speeches[j], people, eventsIds, pdf).Ok?
    ensures SpeechPlan(speeches, people, eventsIds, pdf)
      == (Flatten(seq(|speeches|, j requires 0 <= j < |speeches| => SpeechRequests(speeches[j], people, eventsIds, pdf).value)), Pass)
  {
    if speeches != [] {
      var init := speeches[..|speeches| - 1];
      SpeechPlanConcat(init, people, eventsIds, pdf);
      var parts := seq(|speeches|, j requires 0 <= j < |speeches| => SpeechRequests(speeches[j], people, eventsIds, pdf).value);
      var prev := seq(|init|, j requires 0 <= j < |init| => SpeechRequests(init[j], people, eventsIds, pdf).value);
      assert parts[..|init|] == prev;
    }
  }

  /** The concatenation of a sequence of request lists. */
  function Flatten(parts: seq<seq<Request>>): seq<Request> {
    if parts == [] then [] else Flatten(parts[..|parts| - 1]) + parts[|parts| - 1]
  }

  /** One more speech: the plan of a prefix extended by the next speech's requests. */
  lemma SpeechPlanStep(speeches: seq<Record>, people: map<string, string>, eventsIds: map<Value, Value>,
                       pdf: string -> seq<ParsedSpeech>, k: nat)
    requires k < |speeches|
    requires SpeechPlan(speeches[..k], people, eventsIds, pdf).1.Pass?
    ensures var before := SpeechPlan(speeches[..k], people, eventsIds, pdf);
      SpeechPlan(speeches[..k + 1], people, eventsIds, pdf)
        == match SpeechRequests(speeches[k], people, eventsIds, pdf)
           case Err(e) => (before.0, Fail(e))
           case Ok(rs) => (before.0 + rs, Pass)
  {
    assert speeches[..k + 1][..k] == speeches[..k];
  }

  /** Once a speech has raised, the speeches after it add nothing. */
  lemma {:induction false} PlanFailureStays(speeches: seq<Record>, people: map<string, string>,
                                            eventsIds: map<Value, Value>, pdf: string -> seq<ParsedSpeech>, i: nat)
    requires i <= |speeches|
    requires SpeechPlan(speeches[..i], people, eventsIds, pdf).1.Fail?
    ensures SpeechPlan(speeches, people, eventsIds, pdf) == SpeechPlan(speeches[..i], people, eventsIds, pdf)
  {
    if i < |speeches| {
      var init := speeches[..|speeches| - 1];
      assert init[..i] == speeches[..i];
      PlanFailureStays(init, people, eventsIds, pdf, i);
    } else {
      assert speeches[..i] == speeches;
    }
  }

  /** Builds the people index the way `export_speeches` fills its `people` dict. */
  method IndexPeople(persons: seq<RemotePerson>) returns (people: map<string, string>)
    ensures people == PeopleIndex(persons)
  {
    people := map[];
    var i := 0;
    while i < |persons|
      invariant 0 <= i <= |persons|
      invariant people == IndexOf(Keyed(persons)[..i])
    {
      assert Keyed(persons)[..i + 1][..i] == Keyed(persons)[..i];
      people := people[NormaliseName(persons[i].name) := persons[i].id];
      i := i + 1;
    }
    assert Keyed(persons)[..i] == Keyed(persons);
  }

  lemma TranscriptRequestsStep(speech: Record, parts: seq<ParsedSpeech>, n: nat, people: map<string, string>)
    requires n < |parts|
    ensures TranscriptRequests(speech, parts[..n + 1], people)
         == TranscriptRequests(speech, parts[..n], people)
            + [Request("speeches", TextSpeech(speech, parts[n], n, people), Some(TranscriptKeys))]
  {
    var last := Request("speeches", TextSpeech(speech, parts[n], n, people), Some(TranscriptKeys));
    var a := TranscriptRequests(speech, parts[..n + 1], people);
    var init := TranscriptRequests(speech, parts[..n], people);
    forall m | 0 <= m < n
      ensures a[m] == init[m]
    {
      assert parts[..n + 1][m] == parts[..n][m];
    }
    assert a[n] == last;
    assert a == init + [last];
  }

  /** One iteration of the transcript loop: the copy, with its fields set in place. */
  method CopyForPart(speech: Record, part: ParsedSpeech, n: nat, people: map<string, string>)
    returns (text: Record)
    ensures text == TextSpeech(speech, part, n, people)
  {
    text := speech["text" := Str(part.text)]["position" := Num(n + 1)]["type" := Str("speech")];
    var creator := NormaliseCreatorAsWritten(part.creator);
    if creator in people {
      text := text["creator_id" := Str(people[creator])];
    }
  }

  /** Copies the speech once per parsed part, as the transcript loop does. */
  method CutTranscript(speech: Record, parts: seq<ParsedSpeech>, people: map<string, string>)
    returns (sent: seq<Request>)
    ensures sent == TranscriptRequests(speech, parts, people)
  {
    sent := [];
    var n := 0;
    while n < |parts|
      invariant 0 <= n <= |parts|
      invariant sent == TranscriptRequests(speech, parts[..n], people)
    {
      var text := CopyForPart(speech, parts[n], n, people);
      TranscriptRequestsStep(speech, parts, n, people);
      sent := sent + [Request("speeches", text, Some(TranscriptKeys))];
      n := n + 1;
    }
    assert parts[..n] == parts;
  }

  /**
   * `export_speeches` with the remote people listing, the event-id map and
   * the transcript parser as inputs: builds the people index, then walks the
   * speeches, linking each to its remote event and cutting transcripts into
   * numbered speeches, and hands back the requests in the order they are
   * sent, with whether the walk completed.
   */
  method ExportSpeeches(speeches: seq<Record>, persons: seq<RemotePerson>, eventsIds: map<Value, Value>,
                        pdf: string -> seq<ParsedSpeech>)
    returns (requests: seq<Request>, outcome: Outcome)
    ensures (requests, outcome) == SpeechPlan(speeches, PeopleIndex(persons), eventsIds, pdf)
  {
    var people := IndexPeople(persons);
    requests := [];
    outcome := Pass;
    var k := 0;
    while k < |speeches|
      invariant 0 <= k <= |speeches|
      invariant (requests, outcome) == SpeechPlan(speeches[..k], people, eventsIds, pdf)
      invariant outcome.Pass?
    {
      SpeechPlanStep(speeches, people, eventsIds, pdf, k);
      var speech := speeches[k];
      var session := Get(speech, "event_id");
      if session !in eventsIds {
        outcome := Fail(KeyError(Show(session)));
        PlanFailureStays(speeches, people, eventsIds, pdf, k + 1);
        return;
      }
      speech := speech["event_id" := eventsIds[session]];
      var url := SourceUrl(speech);
      if url.Err? {
        outcome := Fail(url.error);
        PlanFailureStays(speeches, people, eventsIds, pdf, k + 1);
        return;
      }
      if EndsWith(url.value, ".pdf") {
        var sent := CutTranscript(speech, pdf(url.value), people);
        requests := requests + sent;
      } else {
        requests := requests + [Request("speeches", speech, None)];
      }
      k := k + 1;
    }
    assert speeches[..k] == speeches;
  }
}
