/**
 * The value conversions the item loaders apply: table translation,
 * whitespace cleaning and the date formats of the three parliaments'
 * sites, turned into ISO 8601 strings.
 */
module Loaders {
  import opened Text
  import opened Records

  // ---------------------------------------------------------------------
  // translate

  /** A translation table: the entries of a dict, in the order they are tried. */
  type Table = seq<(string, string)>

  /** `phrase.strip().lower() == key.lower()` */
  predicate KeyMatches(phrase: string, key: string) {
    Lower(Strip(phrase)) == Lower(key)
  }

  /** The position of the first entry that passes `test`. */
  function FirstWhere<T>(xs: seq<T>, test: T -> bool): (r: Option<nat>)
    ensures r.Some? ==> r.value < |xs| && test(xs[r.value])
    ensures r.Some? ==> forall j :: 0 <= j < r.value ==> !test(xs[j])
    ensures r.None? <==> forall j :: 0 <= j < |xs| ==> !test(xs[j])
  {
    if xs == [] then None
    else if test(xs[0]) then Some(0)
    else
      var r := FirstWhere(xs[1..], test);
      assert forall j :: 0 <= j < |xs| - 1 ==> xs[1..][j] == xs[j + 1];
      if r.Some? then Some(r.value + 1) else None
  }

  /** The position of the first key the phrase matches. */
  function FindKey(phrase: string, table: Table): (r: Option<nat>)
    ensures r.Some? ==> r.value < |table| && KeyMatches(phrase, table[r.value].0)
    ensures r.Some? ==> forall j :: 0 <= j < r.value ==> !KeyMatches(phrase, table[j].0)
    ensures r.None? <==> forall j :: 0 <= j < |table| ==> !KeyMatches(phrase, table[j].0)
  {
    FirstWhere(table, (e: (string, string)) => KeyMatches(phrase, e.0))
  }

  /**
   * `translate(phrase, words_dict, allow_empty)`: the value of the first key
   * equal to the phrase up to surrounding whitespace and case; without one,
   * the phrase itself, or None when `allow_empty` is set.
   */
  function Translate(phrase: string, table: Table, allowEmpty: bool): (r: Option<string>)
    ensures (exists i :: 0 <= i < |table| && KeyMatches(phrase, table[i].0)) ==>
      r.Some? && exists i :: 0 <= i < |table| && KeyMatches(phrase, table[i].0) && r.value == table[i].1
    ensures (forall i :: 0 <= i < |table| ==> !KeyMatches(phrase, table[i].0)) ==>
      r == (if allowEmpty then None else Some(phrase))
  {
    match FindKey(phrase, table)
    case Some(i) => Some(table[i].1)
    case None => if allowEmpty then None else Some(phrase)
  }

  /** No two keys of the table are equal once lower-cased. */
  predicate DistinctKeys(table: Table) {
    forall i, j :: 0 <= i < j < |table| ==> Lower(table[i].0) != Lower(table[j].0)
  }

  /** No two keys share a value: the table is one to one. */
  predicate DistinctValues(table: Table) {
    forall i, j :: 0 <= i < j < |table| ==> table[i].1 != table[j].1
  }

  /**
   * With keys distinct up to case, every key (and the key with other
   * capitalisation or surrounding whitespace) translates to its own value,
   * whatever order the entries are tried in.
   */
  lemma TranslateKey(phrase: string, table: Table, i: nat, allowEmpty: bool)
    requires DistinctKeys(table)
    requires i < |table| && Lower(Strip(phrase)) == Lower(table[i].0)
    ensures Translate(phrase, table, allowEmpty) == Some(table[i].1)
  {
    assert FindKey(phrase, table) == Some(i);
  }

  /** Every key, written as in the table, translates to its own value. */
  predicate TranslatesKeys(table: Table) {
    forall i, allowEmpty :: 0 <= i < |table| ==> Translate(table[i].0, table, allowEmpty) == Some(table[i].1)
  }

  /** Keys without surrounding whitespace and distinct up to case all translate to their own values. */
  lemma KeysTranslate(table: Table)
    requires DistinctKeys(table) && Unpadded(table)
    ensures TranslatesKeys(table)
  {
    forall i, allowEmpty | 0 <= i < |table|
      ensures Translate(table[i].0, table, allowEmpty) == Some(table[i].1)
    {
      TranslateKey(table[i].0, table, i, allowEmpty);
    }
  }

  /** Characters below 'A', or between 'Z' and the end of Latin-1 other than its capitals. */
  predicate Uncased(c: char) {
    c < 'A' || ('Z' < c < '\U{00C0}') || ('\U{00DF}' <= c <= '\U{00FF}')
  }

  /** A string without capitals is its own lower-case form. */
  lemma LowerKeeps(s: string)
    requires forall i :: 0 <= i < |s| ==> Uncased(s[i])
    ensures Lower(s) == s
  {
    forall i | 0 <= i < |s|
      ensures LowerChar(s[i]) == s[i]
    {
      assert !HasLower(s[i]);
    }
  }

  /** The lower-cased keys of a table, given position by position, and distinct. */
  lemma DistinctLoweredKeys(table: Table, lowered: seq<string>)
    requires |lowered| == |table|
    requires forall i :: 0 <= i < |table| ==> Lower(table[i].0) == lowered[i]
    requires forall i, j :: 0 <= i < j < |lowered| ==> lowered[i] != lowered[j]
    ensures DistinctKeys(table)
  {
  }

  /** `MojePanstwoVoteLoader.VOTE_OPTIONS` */
  const MojePanstwoVoteOptions: Table := [("1", "yes"), ("2", "no"), ("3", "abstain"), ("4", "absent")]

  /** `ParlamentHuVoteLoader.VOTE_OPTIONS` */
  const ParlamentHuVoteOptions: Table :=
    [("Igen", "yes"), ("Nem", "no"), ("Tart.", "abstain"), ("Ig.távol", "excused"),
     ("Nem szav.", "absent"), ("Jelen, nem szav.", "not voting")]

  /** `MojePanstwoMotionLoader.VOTING_RESULTS` and `MojePanstwoVoteEventLoader.VOTING_RESULTS` */
  const MojePanstwoVotingResults: Table := [("1", "pass"), ("2", "fail")]

  /** `ParlamentHuVoteEventLoader.VOTING_RESULTS` */
  const ParlamentHuVotingResults: Table := [("Elfogadott", "pass"), ("Elvetett", "fail")]

  /** `SkupstinaMeMotionLoader.RESULT_OPTIONS` */
  const SkupstinaMeResultOptions: Table := [("usvojen", "pass"), ("nije usvojen", "fail")]

  /** `ParlamentHuMembershipLoader.ROLES` */
  const ParlamentHuRoles: Table :=
    [("frakciótitkár", "secretary of the parliamentary group"),
     ("Elnök", "president"),
     ("frakcióvez. h.", "deputy leader of parliamentary group"),
     ("Titkár", "secretary"),
     ("frakcióvezető", "leader of parliamentary group"),
     ("Alelnök", "vice president"),
     ("Társelnök", "co-president"),
     ("Tag", "member"),
     ("Helyettesítő alelnök", "substituting vice president")]

  /** `ParlamentHuMotionLoader.REQUIREMENT_OPTIONS` */
  const ParlamentHuRequirementOptions: Table :=
    [("Jelenlét megállapítás", "to determine attendance"),
     ("Listás", "ballot"),
     ("Listás a jelenlevők 2/3-ával", "ballot with 2/3 of present mps"),
     ("Listás a jelenlevők 4/5-ével", "ballot with 4/5 of present mps"),
     ("Listás az összes képviselő felével", "ballot with 1/2 of all mps"),
     ("Listás az összes képviselő 2/3-ával", "ballot with 2/3 of all mps"),
     ("Listás az összes képviselő 4/5-ével", "ballot with 4/5 of all mpsl"),
     ("Név nélküli", "anonymus"),
     ("Név nélküli a jelenlevők 2/3-ával", "anonymous with 2/3 of present mps"),
     ("Név nélküli a jelenlevők 4/5-ével", "anonymous with 1/2 of present mps"),
     ("Név nélküli az összes képviselő felével", "anonymous with 1/2 of all mps"),
     ("Név nélküli az összes képviselő 2/3-ával", "anonymous with 2/3 of all mps"),
     ("Név nélküli az összes képviselő 4/5-ével", "anonymous with 4/5 of all mps"),
     ("Név nélküli jelenlét megállapítás", "anonymous to determine attendance"),
     ("Név szerinti", "roll-call"),
     ("Név szerinti a jelenlevők 2/3-ával", "roll-call with 2/3 of present mps"),
     ("Név szerinti az összes képviselő felével", "roll-call with 1/2 of all mps"),
     ("Név szerinti az összes képviselő 2/3-ával", "roll-call with 2/3 of all mps"),
     ("Titkos", "secret"),
     ("Titkos az összes képviselő 2/3-ával", "secret with 2/3 of all mps")]

  /** No key of the table has whitespace around it. */
  predicate Unpadded(table: Table) {
    forall i :: 0 <= i < |table| ==> Strip(table[i].0) == table[i].0
  }

  /** The Polish vote option keys '1'..'4' have no surrounding whitespace. */
  lemma MojePanstwoVoteKeysUnpadded()
    ensures Unpadded(MojePanstwoVoteOptions)
  {
    var t := MojePanstwoVoteOptions;
    forall i | 0 <= i < |t|
      ensures Strip(t[i].0) == t[i].0
    {
      var k := t[i].0;
      assert |k| == 1 && '1' <= k[0] <= '4';
    }
  }

  /** The Polish vote option keys '1'..'4' are distinct. */
  lemma MojePanstwoVoteKeys()
    ensures DistinctKeys(MojePanstwoVoteOptions)
  {
    LowerKeeps("1");
    LowerKeeps("2");
    LowerKeeps("3");
    LowerKeeps("4");
    DistinctLoweredKeys(MojePanstwoVoteOptions, ["1", "2", "3", "4"]);
  }

  /** No two Polish vote options share a value. */
  lemma MojePanstwoVoteValues()
    ensures DistinctValues(MojePanstwoVoteOptions)
  {
  }

  /** No two Hungarian vote options share a value. */
  lemma ParlamentHuVoteValues()
    ensures DistinctValues(ParlamentHuVoteOptions)
  {
  }

  /** The Polish vote options map '1'..'4' to yes, no, abstain and absent, one to one. */
  lemma MojePanstwoVoteOptionsOneToOne()
    ensures DistinctValues(MojePanstwoVoteOptions) && TranslatesKeys(MojePanstwoVoteOptions)
  {
    MojePanstwoVoteKeys();
    MojePanstwoVoteKeysUnpadded();
    KeysTranslate(MojePanstwoVoteOptions);
    assert DistinctValues(MojePanstwoVoteOptions) by { MojePanstwoVoteValues(); }
  }

  /** The Hungarian vote option keys have no surrounding whitespace. */
  lemma ParlamentHuVoteKeysUnpadded()
    ensures Unpadded(ParlamentHuVoteOptions)
  {
    var t := ParlamentHuVoteOptions;
    forall i | 0 <= i < |t|
      ensures Strip(t[i].0) == t[i].0
    {
      var k := t[i].0;
      assert k != [] && !IsSpace(k[0]) && !IsSpace(k[|k| - 1]);
    }
  }

  /** The Hungarian vote option keys are distinct up to case. */
  lemma ParlamentHuVoteKeys()
    ensures DistinctKeys(ParlamentHuVoteOptions)
  {
    HuShortKeysLowered();
    HuLongKeysLowered();
    DistinctLoweredKeys(ParlamentHuVoteOptions, ["igen", "nem", "tart.", "ig.távol", "nem szav.", "jelen, nem szav."]);
  }

  lemma HuShortKeysLowered()
    ensures Lower("Igen") == "igen" && Lower("Nem") == "nem" && Lower("Tart.") == "tart."
  {
    LowerFirst("Igen", "igen");
    LowerFirst("Nem", "nem");
    LowerFirst("Tart.", "tart.");
  }

  lemma HuLongKeysLowered()
    ensures Lower("Ig.távol") == "ig.távol" && Lower("Nem szav.") == "nem szav."
    ensures Lower("Jelen, nem szav.") == "jelen, nem szav."
  {
    LowerFirst("Ig.távol", "ig.távol");
    LowerFirst("Nem szav.", "nem szav.");
    LowerFirst("Jelen, nem szav.", "jelen, nem szav.");
  }

  /** The Hungarian vote options are one to one, each key translating to its own option. */
  lemma ParlamentHuVoteOptionsOneToOne()
    ensures DistinctValues(ParlamentHuVoteOptions) && TranslatesKeys(ParlamentHuVoteOptions)
  {
    ParlamentHuVoteKeys();
    ParlamentHuVoteKeysUnpadded();
    KeysTranslate(ParlamentHuVoteOptions);
    assert DistinctValues(ParlamentHuVoteOptions) by { ParlamentHuVoteValues(); }
  }

  /** A phrase matching none of the lower-cased keys is passed through, or dropped under `allow_empty`. */
  lemma TranslateUnknown(phrase: string, table: Table, lowered: seq<string>, allowEmpty: bool)
    requires |lowered| == |table|
    requires forall i :: 0 <= i < |table| ==> Lower(table[i].0) == lowered[i]
    requires Lower(Strip(phrase)) !in lowered
    ensures Translate(phrase, table, allowEmpty) == (if allowEmpty then None else Some(phrase))
  {
  }

  /** A word capitalised in ASCII lower-cases to the word. */
  lemma LowerFirst(s: string, lowered: string)
    requires |s| == |lowered| && s != [] && IsAsciiUpper(s[0]) && lowered[0] as int == s[0] as int + 32
    requires s[1..] == lowered[1..] && forall i :: 1 <= i < |s| ==> Uncased(s[i])
    ensures Lower(s) == lowered
  {
    forall i | 1 <= i < |s|
      ensures LowerChar(s[i]) == s[i]
    {
      assert !HasLower(s[i]);
    }
  }

  /** A Montenegrin result outside the table is dropped (None), not passed through. */
  lemma SkupstinaMeResultDropsUnknown(phrase: string)
    requires Lower(Strip(phrase)) != "usvojen" && Lower(Strip(phrase)) != "nije usvojen"
    ensures Translate(phrase, SkupstinaMeResultOptions, true) == None
  {
    SkupstinaMeResultKeys();
    NotEitherOf(Lower(Strip(phrase)), "usvojen", "nije usvojen");
    TranslateUnknown(phrase, SkupstinaMeResultOptions, ["usvojen", "nije usvojen"], true);
  }

  lemma NotEitherOf(k: string, a: string, b: string)
    requires k != a && k != b
    ensures k !in [a, b]
  {
  }

  /** The Montenegrin result keys are lower-case already. */
  lemma SkupstinaMeResultKeys()
    ensures forall i :: 0 <= i < |SkupstinaMeResultOptions| ==>
      Lower(SkupstinaMeResultOptions[i].0) == ["usvojen", "nije usvojen"][i]
  {
    LowerKeeps("usvojen");
    LowerKeeps("nije usvojen");
  }

  // ---------------------------------------------------------------------
  // strip

  const NoBreakSpace: char := '\U{00A0}'

  /** `s.replace(u'\xa0', u' ').strip()` */
  function StripText(s: string): (r: string)
    ensures NoBreakSpace !in r
    ensures r == [] || (!IsSpace(r[0]) && !IsSpace(r[|r| - 1]))
  {
    var t := ReplaceChar(s, NoBreakSpace, ' ');
    ReplaceRemoves(s, NoBreakSpace, ' ');
    StripAvoids(t, NoBreakSpace);
    Strip(t)
  }

  /** `strip` takes its result from inside the string, so it adds no character. */
  lemma StripAvoids(s: string, c: char)
    requires c !in s
    ensures c !in Strip(s)
  {
    var l := LStrip(s);
    SliceAvoids(s, |s| - |l|, |s|, c);
    SliceAvoids(l, 0, |RStrip(l)|, c);
  }

  /** A slice holds only characters of the whole. */
  lemma SliceAvoids<T>(s: seq<T>, i: nat, j: nat, c: T)
    requires i <= j <= |s| && c !in s
    ensures c !in s[i..j]
  {
    forall k | 0 <= k < j - i
      ensures s[i..j][k] != c
    {
      assert s[i..j][k] == s[i + k];
    }
  }

  /** Replacing a character by another leaves none of it. */
  lemma ReplaceRemoves(s: string, a: char, b: char)
    requires a != b
    ensures a !in ReplaceChar(s, a, b)
  {
    var t := ReplaceChar(s, a, b);
    forall i | 0 <= i < |t|
      ensures t[i] != a
    {
    }
  }

  /** Cleaning a cleaned string changes nothing. */
  lemma StripTextIdempotent(s: string)
    ensures StripText(StripText(s)) == StripText(s)
  {
    var r := StripText(s);
    ReplaceAbsent(r, NoBreakSpace, ' ');
  }

  /** Replacing a character that does not occur changes nothing. */
  lemma ReplaceAbsent(s: string, a: char, b: char)
    requires a !in s
    ensures ReplaceChar(s, a, b) == s
  {
    var t := ReplaceChar(s, a, b);
    assert forall i :: 0 <= i < |s| ==> t[i] == s[i];
  }

  /** `strip(s)`: strings are cleaned, any other value is returned as it is. */
  function StripValue(v: Value): (r: Value)
    ensures !v.Str? ==> r == v
    ensures v.Str? ==> r == Str(StripText(v.s))
  {
    if v.Str? then Str(StripText(v.s)) else v
  }

  // ---------------------------------------------------------------------
  // dates
  //
  // `strptime` is modelled on the zero-padded forms these sites write: each
  // field has its full number of digits.

  /** `s[i..i+w]` is a run of decimal digits. */
  predicate DigitsAt(s: string, i: nat, w: nat) {
    i + w <= |s| && AllDigits(s[i..i + w])
  }

  /** The number written by the digits `s[i..i+w]`. */
  function NumberAt(s: string, i: nat, w: nat): nat
    requires DigitsAt(s, i, w)
  {
    DigitsValue(s[i..i + w])
  }

  /** "YYYY<sep>MM<sep>DD" at the start of `s`. */
  predicate DateShape(s: string, sep: char) {
    |s| >= 10 && DigitsAt(s, 0, 4) && s[4] == sep && DigitsAt(s, 5, 2) && s[7] == sep && DigitsAt(s, 8, 2)
  }

  /** "YYYY<sep>MM<sep>DD<mid>HH:MM:SS", the whole of `s`. */
  predicate DateTimeShape(s: string, sep: char, mid: char) {
    |s| == 19 && DateShape(s, sep) && s[10] == mid
    && DigitsAt(s, 11, 2) && s[13] == ':' && DigitsAt(s, 14, 2) && s[16] == ':' && DigitsAt(s, 17, 2)
  }

  datatype DateTime = DateTime(year: nat, month: nat, day: nat, hour: nat, minute: nat, second: nat)

  predicate IsLeapYear(y: nat) {
    y % 4 == 0 && (y % 100 != 0 || y % 400 == 0)
  }

  function DaysInMonth(y: nat, m: nat): nat
    requires 1 <= m <= 12
  {
    if m == 2 then (if IsLeapYear(y) then 29 else 28)
    else if m in {4, 6, 9, 11} then 30
    else 31
  }

  /** What `datetime` accepts: years 1 to 9999, real calendar days, times of day. */
  predicate ValidDateTime(t: DateTime) {
    1 <= t.year <= 9999 && 1 <= t.month <= 12 && 1 <= t.day <= DaysInMonth(t.year, t.month)
    && t.hour < 24 && t.minute < 60 && t.second < 60
  }

  /** A checked date and time, or ValueError as `datetime` raises. */
  function Checked(t: DateTime): (r: Result<DateTime>)
    ensures r.Ok? <==> ValidDateTime(t)
    ensures r.Ok? ==> r.value == t
  {
    if ValidDateTime(t) then Ok(t) else Err(ValueError)
  }

  /** `date.isoformat()` */
  function IsoDateString(t: DateTime): string {
    Padded(t.year, 4) + "-" + Padded(t.month, 2) + "-" + Padded(t.day, 2)
  }

  /** "HH:MM:SS" */
  function TimeString(t: DateTime): string {
    Padded(t.hour, 2) + ":" + Padded(t.minute, 2) + ":" + Padded(t.second, 2)
  }

  /** `datetime.isoformat(' ')` (no microseconds are ever set here) */
  function IsoDateTimeString(t: DateTime): string {
    IsoDateString(t) + " " + TimeString(t)
  }

  lemma MidnightString(t: DateTime)
    requires t.hour == 0 && t.minute == 0 && t.second == 0
    ensures TimeString(t) == "00:00:00"
    ensures IsoDateTimeString(t) == IsoDateString(t) + " 00:00:00"
  {
    assert Padded(0, 2) == "00";
    assert " " + "00:00:00" == " 00:00:00";
  }

  /** The date of "YYYY?MM?DD...", at midnight. */
  function DateAt(s: string, sep: char): DateTime
    requires DateShape(s, sep)
  {
    DateTime(NumberAt(s, 0, 4), NumberAt(s, 5, 2), NumberAt(s, 8, 2), 0, 0, 0)
  }

  /** The date and time of "YYYY?MM?DD?HH:MM:SS". */
  function DateTimeAt(s: string, sep: char, mid: char): DateTime
    requires DateTimeShape(s, sep, mid)
  {
    DateTime(NumberAt(s, 0, 4), NumberAt(s, 5, 2), NumberAt(s, 8, 2),
             NumberAt(s, 11, 2), NumberAt(s, 14, 2), NumberAt(s, 17, 2))
  }

  /** A padded field written back gives the digits it was read from. */
  lemma NumberAtPadded(s: string, i: nat, w: nat)
    requires DigitsAt(s, i, w)
    ensures Padded(NumberAt(s, i, w), w) == s[i..i + w]
  {
    PaddedDigitsValue(s[i..i + w]);
  }

  /** The ISO date of a date read from "YYYY?MM?DD" is the same digits with '-' between. */
  lemma IsoOfDateShape(s: string, sep: char)
    requires DateShape(s, sep)
    ensures IsoDateString(DateAt(s, sep)) == s[..4] + "-" + s[5..7] + "-" + s[8..10]
  {
    var t := DateAt(s, sep);
    NumberAtPadded(s, 0, 4);
    NumberAtPadded(s, 5, 2);
    NumberAtPadded(s, 8, 2);
    assert s[0..4] == s[..4];
    assert Padded(t.year, 4) == s[..4] && Padded(t.month, 2) == s[5..7] && Padded(t.day, 2) == s[8..10];
  }

  /** The same for a date and time: the time digits stay as they were. */
  lemma IsoOfDateTimeShape(s: string, sep: char, mid: char)
    requires DateTimeShape(s, sep, mid)
    ensures IsoDateTimeString(DateTimeAt(s, sep, mid)) == s[..4] + "-" + s[5..7] + "-" + s[8..10] + " " + s[11..]
  {
    IsoOfDateShape(s, sep);
    assert IsoDateString(DateTimeAt(s, sep, mid)) == IsoDateString(DateAt(s, sep));
    NumberAtPadded(s, 11, 2);
    NumberAtPadded(s, 14, 2);
    NumberAtPadded(s, 17, 2);
    assert s[11..] == s[11..13] + ":" + s[14..16] + ":" + s[17..19];
  }

  /** "DD.MM.YYYY" */
  predicate DayMonthYearShape(s: string) {
    |s| == 10 && DigitsAt(s, 0, 2) && s[2] == '.' && DigitsAt(s, 3, 2) && s[5] == '.' && DigitsAt(s, 6, 4)
  }

  /** `datetime.strptime(s, '%d.%m.%Y')` */
  function ParseDayMonthYear(s: string): (r: Result<DateTime>)
    ensures r.Ok? ==> r.value.hour == 0 && r.value.minute == 0 && r.value.second == 0
  {
    if DayMonthYearShape(s) then Checked(DateTime(NumberAt(s, 6, 4), NumberAt(s, 3, 2), NumberAt(s, 0, 2), 0, 0, 0))
    else Err(ValueError)
  }

  /** `me_to_iso`: "DD.MM.YYYY", once cleaned, as "YYYY-MM-DD". */
  function MeToIso(d: string): Result<string> {
    var t :- ParseDayMonthYear(StripText(d));
    Ok(IsoDateString(t))
  }

  /** `me_to_iso_datetime`: the same date, at midnight. */
  function MeToIsoDateTime(d: string): Result<string> {
    var t :- ParseDayMonthYear(StripText(d));
    Ok(IsoDateTimeString(t))
  }

  /** The digits of a Montenegrin date are moved, not changed: day and year swap ends. */
  lemma MeToIsoRearranges(d: string)
    requires MeToIso(d).Ok?
    ensures var s := StripText(d);
      |s| == 10 && MeToIso(d).value == s[6..10] + "-" + s[3..5] + "-" + s[..2]
  {
    var s := StripText(d);
    NumberAtPadded(s, 0, 2);
    NumberAtPadded(s, 3, 2);
    NumberAtPadded(s, 6, 4);
  }

  /** Every valid day, written the Montenegrin way, converts to its ISO date. */
  lemma MeToIsoRoundTrip(t: DateTime)
    requires ValidDateTime(t) && t.hour == 0 && t.minute == 0 && t.second == 0
    ensures var s := Padded(t.day, 2) + "." + Padded(t.month, 2) + "." + Padded(t.year, 4);
      MeToIso(s) == Ok(IsoDateString(t))
  {
    var s := Padded(t.day, 2) + "." + Padded(t.month, 2) + "." + Padded(t.year, 4);
    DayMonthYearParsed(t);
    assert forall i :: 0 <= i < |s| ==> IsDigit(s[i]) || s[i] == '.';
    StripTextKeeps(s);
  }

  /** A valid day written "DD.MM.YYYY" parses back to that day. */
  lemma DayMonthYearParsed(t: DateTime)
    requires ValidDateTime(t) && t.hour == 0 && t.minute == 0 && t.second == 0
    ensures var s := Padded(t.day, 2) + "." + Padded(t.month, 2) + "." + Padded(t.year, 4);
      |s| == 10 && DayMonthYearShape(s) && ParseDayMonthYear(s) == Ok(t)
  {
    var dd, mm, yyyy := Padded(t.day, 2), Padded(t.month, 2), Padded(t.year, 4);
    var s := dd + "." + mm + "." + yyyy;
    assert s[0..0 + 2] == dd;
    assert s[3..3 + 2] == mm;
    assert s[6..6 + 4] == yyyy;
    assert DayMonthYearShape(s);
    DigitsValuePadded(t.day, 2);
    DigitsValuePadded(t.month, 2);
    DigitsValuePadded(t.year, 4);
    assert DateTime(NumberAt(s, 6, 4), NumberAt(s, 3, 2), NumberAt(s, 0, 2), 0, 0, 0) == t;
  }

  /** A string of digits and dots that starts and ends with a digit is already clean. */
  lemma StripTextKeeps(s: string)
    requires s != [] && IsDigit(s[0]) && IsDigit(s[|s| - 1])
    requires forall i :: 0 <= i < |s| ==> IsDigit(s[i]) || s[i] == '.'
    ensures StripText(s) == s
  {
    assert ReplaceChar(s, NoBreakSpace, ' ') == s;
    assert !IsSpace(s[0]) && !IsSpace(s[|s| - 1]);
  }

  /** `me_to_iso_datetime` gives the date of `me_to_iso` at 00:00:00, and fails exactly when it does. */
  lemma MeToIsoDateTimeAtMidnight(d: string)
    ensures MeToIsoDateTime(d).Ok? <==> MeToIso(d).Ok?
    ensures MeToIso(d).Ok? ==> MeToIsoDateTime(d).value == MeToIso(d).value + " 00:00:00"
  {
    var t := ParseDayMonthYear(StripText(d));
    assert MeToIso(d) == if t.Ok? then Ok(IsoDateString(t.value)) else Err(t.error);
    assert MeToIsoDateTime(d) == if t.Ok? then Ok(IsoDateTimeString(t.value)) else Err(t.error);
    if t.Ok? {
      MidnightString(t.value);
    }
  }

  /** `strip(d).rstrip('.')`, where the Hungarian functions start. */
  function HuClean(d: string): string {
    RStripChar(StripText(d), '.')
  }

  /** `hu_to_iso`: "YYYY.MM.DD" (trailing dots ignored) as "YYYY-MM-DD"; nothing stays nothing. */
  function HuToIso(d: string): Result<string> {
    var s := HuClean(d);
    if s == [] then Ok([])
    else if |s| == 10 && DateShape(s, '.') then
      var t :- Checked(DateAt(s, '.'));
      Ok(IsoDateString(t))
    else Err(ValueError)
  }

  /** `hu_to_iso_datetime`: "YYYY.MM.DD.HH:MM:SS" (trailing dots ignored) as "YYYY-MM-DD HH:MM:SS". */
  function HuToIsoDateTime(d: string): Result<string> {
    var s := HuClean(d);
    if s == [] then Ok([])
    else if DateTimeShape(s, '.', '.') then
      var t :- Checked(DateTimeAt(s, '.', '.'));
      Ok(IsoDateTimeString(t))
    else Err(ValueError)
  }

  /** A Hungarian date keeps its digits in place; only the separators become '-'. */
  lemma HuToIsoRearranges(d: string)
    requires HuToIso(d).Ok?
    ensures var s := HuClean(d);
      (s == [] ==> HuToIso(d).value == [])
      && (s != [] ==> |s| == 10 && HuToIso(d).value == s[..4] + "-" + s[5..7] + "-" + s[8..10])
  {
    var s := HuClean(d);
    if s != [] {
      IsoOfDateShape(s, '.');
    }
  }

  /** A Hungarian date and time: the date separators become '-', the last '.' a space. */
  lemma HuToIsoDateTimeRearranges(d: string)
    requires HuToIsoDateTime(d).Ok? && HuClean(d) != []
    ensures var s := HuClean(d);
      |s| == 19 && HuToIsoDateTime(d).value == s[..4] + "-" + s[5..7] + "-" + s[8..10] + " " + s[11..]
  {
    IsoOfDateTimeShape(HuClean(d), '.', '.');
  }

  /**
   * `pl_to_datetime`: None for the placeholder '0000-00-00'; otherwise a
   * date and time "YYYY-MM-DD HH:MM:SS", or failing that a date "YYYY-MM-DD"
   * at midnight.
   */
  function PlToDateTime(d: string): Result<Option<DateTime>> {
    if d == "0000-00-00" then Ok(None)
    else
      var first := if DateTimeShape(d, '-', ' ') then Checked(DateTimeAt(d, '-', ' ')) else Err(ValueError);
      if first.Ok? then Ok(Some(first.value))
      else if |d| == 10 && DateShape(d, '-') then
        var t :- Checked(DateAt(d, '-'));
        Ok(Some(t))
      else Err(ValueError)
  }

  /** `pl_to_iso`: the date part, None passed on. */
  function PlToIso(d: string): Result<Option<string>> {
    var dt :- PlToDateTime(d);
    if dt.None? then Ok(None) else Ok(Some(IsoDateString(dt.value)))
  }

  /** `pl_to_iso_datetime`: the date and time, None passed on. */
  function PlToIsoDateTime(d: string): Result<Option<string>> {
    var dt :- PlToDateTime(d);
    if dt.None? then Ok(None) else Ok(Some(IsoDateTimeString(dt.value)))
  }

  /**
   * Only the placeholder gives None; both conversions fail together; and the
   * ISO date is the first ten characters of the ISO date and time.
   */
  lemma PlToIsoIsDatePart(d: string)
    ensures PlToIso(d) == Ok(None) <==> d == "0000-00-00"
    ensures PlToIsoDateTime(d) == Ok(None) <==> d == "0000-00-00"
    ensures PlToIso(d).Ok? <==> PlToIsoDateTime(d).Ok?
    ensures PlToIso(d).Ok? && PlToIso(d).value.Some? ==>
      PlToIsoDateTime(d).value.Some? && PlToIso(d).value.value == PlToIsoDateTime(d).value.value[..10]
  {
  }

  /** A Polish date and time is already in ISO form: converting keeps it. */
  lemma PlToIsoDateTimeKeeps(d: string)
    requires d != "0000-00-00" && DateTimeShape(d, '-', ' ')
    requires PlToIsoDateTime(d).Ok?
    ensures PlToIsoDateTime(d) == Ok(Some(d))
  {
    var t := DateTimeAt(d, '-', ' ');
    PlDateTimeShapeRead(d);
    assert IsoDateTimeString(t) == d by {
      IsoOfDateTimeShape(d, '-', ' ');
      assert d == d[..4] + "-" + d[5..7] + "-" + d[8..10] + " " + d[11..];
    }
  }

  /** Both conversions of a string read as a date and time write that date and time out. */
  lemma PlConversionsOfRead(d: string, t: DateTime)
    requires PlToDateTime(d) == Ok(Some(t))
    ensures PlToIsoDateTime(d) == Ok(Some(IsoDateTimeString(t)))
    ensures PlToIso(d) == Ok(Some(IsoDateString(t)))
  {
  }

  /** A string shaped as a date and time is read as that date and time, when valid. */
  lemma PlDateTimeShapeRead(d: string)
    requires d != "0000-00-00" && DateTimeShape(d, '-', ' ')
    ensures PlToDateTime(d) == if ValidDateTime(DateTimeAt(d, '-', ' ')) then Ok(Some(DateTimeAt(d, '-', ' '))) else Err(ValueError)
  {
  }

  /** A string shaped as a bare date is read as that day at midnight, when valid. */
  lemma PlDateShapeRead(d: string)
    requires d != "0000-00-00" && |d| == 10 && DateShape(d, '-')
    ensures PlToDateTime(d) == if ValidDateTime(DateAt(d, '-')) then Ok(Some(DateAt(d, '-'))) else Err(ValueError)
  {
    assert !DateTimeShape(d, '-', ' ');
  }

  /** A bare Polish date is accepted through the fallback, at midnight. */
  lemma PlToIsoDateFallback(d: string)
    requires d != "0000-00-00" && |d| == 10 && DateShape(d, '-')
    requires PlToIsoDateTime(d).Ok?
    ensures PlToIsoDateTime(d) == Ok(Some(d + " 00:00:00"))
    ensures PlToIso(d) == Ok(Some(d))
  {
    var t := DateAt(d, '-');
    assert PlToDateTime(d) == Ok(Some(t)) by {
      PlDateShapeRead(d);
      assert PlToIsoDateTime(d).Ok? ==> PlToDateTime(d).Ok?;
    }
    PlConversionsOfRead(d, t);
    assert IsoDateString(t) == d by {
      IsoOfDateShape(d, '-');
      DashedParts(d);
    }
    MidnightString(t);
  }

  /** A ten-character date with dashes at 4 and 7 is its three parts joined by dashes. */
  lemma DashedParts(d: string)
    requires |d| == 10 && d[4] == '-' && d[7] == '-'
    ensures d == d[..4] + "-" + d[5..7] + "-" + d[8..10]
  {
    var j := d[..4] + "-" + d[5..7] + "-" + d[8..10];
    assert |j| == 10;
    forall i | 0 <= i < 10
      ensures j[i] == d[i]
    {
    }
  }
}
