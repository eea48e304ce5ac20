/**
 * The Montenegrin parliament's scraper (www.skupstina.me): how it reads a
 * member's id from a link, how it groups the rows of the motions table into
 * motions and which of their keys reach the Motion item, and how it turns
 * the links of a page into requests.
 */
module SkupstinaMeSpider {
  import opened Text
  import opened Records
  import opened Urls
  import opened Utils
  import opened Items
  import Loaders

  // ---------------------------------------------------------------------
  // get_person_id

  /** `[\w\-]`: a character of the name that follows a member's id in a link. */
  predicate IsSlugChar(c: char) { IsWordChar(c) || c == '-' }

  /** Where `$` lets a match end: the end of the text, or just before one final newline. */
  function BeforeFinalNewline(s: string): (t: string)
    ensures t == s || (|s| == |t| + 1 && s[..|t|] == t && s[|t|] == '\n')
  {
    if s != [] && s[|s| - 1] == '\n' then s[..|s| - 1] else s
  }

  /**
   * The `id` group of `/(?P<id>\d+)[\w\-]+$` when the pattern matches at
   * position `i`: after the slash, digits and then at least one more word
   * or dash character up to the end. The digits are taken greedily, but
   * leave at least one character for the tail.
   */
  function IdAt(s: string, i: nat): (r: Option<string>)
    requires i <= |s|
    ensures r.Some? ==> i < |s| && s[i] == '/' && r.value != [] && AllDigits(r.value)
  {
    if i < |s| && s[i] == '/' then
      var t := BeforeFinalNewline(s[i + 1..]);
      if |t| >= 2 && IsDigit(t[0]) && forall k :: 1 <= k < |t| ==> IsSlugChar(t[k]) then
        var n := DigitRun(t);
        var g := if n == |t| then n - 1 else n;
        Some(t[..g])
      else None
    else None
  }

  /** `regex.search(url)`: the group of the leftmost match at or after position `i`. */
  function SearchId(s: string, i: nat): (r: Option<string>)
    requires i <= |s|
    ensures r.Some? ==> exists j :: i <= j <= |s| && IdAt(s, j) == r
    ensures r.None? ==> forall j :: i <= j <= |s| ==> IdAt(s, j).None?
    decreases |s| - i
  {
    var here := IdAt(s, i);
    if here.Some? || i == |s| then here
    else SearchId(s, i + 1)
  }

  /** The pattern is anchored at the end, so only the last slash of a text can start a match. */
  lemma OnlyLastSlashMatches(s: string, i: nat, j: nat)
    requires i < j <= |s| && IdAt(s, i).Some?
    ensures IdAt(s, j).None?
  {
    if j < |s| {
      var t := BeforeFinalNewline(s[i + 1..]);
      var k := j - (i + 1);
      if k < |t| {
        assert t[k] == s[j];
      } else {
        assert s[j] == '\n';
      }
    }
  }

  /**
   * `get_person_id` as written: the query is parsed out of the WHOLE link,
   * so its first parameter is read under a name that starts with the
   * link's path; failing an 'id' value, the id is the digits that start
   * the link's last segment.
   */
  function GetPersonIdAsWritten(url: string): (r: Option<string>)
    ensures QueryValue(url, "id").Some? ==> r == QueryValue(url, "id")
  {
    match QueryValue(url, "id")
    case Some(v) => Some(v)
    case None => SearchId(url, 0)
  }

  /**
   * `get_person_id` with the query read from the link's query part: an 'id'
   * query parameter wins; otherwise the digits that start the last segment
   * of the link, when that segment is digits followed by word or dash
   * characters; otherwise nothing.
   */
  function GetPersonId(url: string): (r: Option<string>)
    ensures QueryValue(QueryOf(url), "id").Some? ==> r == QueryValue(QueryOf(url), "id")
    ensures QueryValue(QueryOf(url), "id").None? ==>
      (r.Some? <==> exists i :: 0 <= i <= |url| && IdAt(url, i).Some?)
    ensures QueryValue(QueryOf(url), "id").None? && r.Some? ==>
      r.value != [] && AllDigits(r.value) && exists i :: 0 <= i <= |url| && IdAt(url, i) == r
  {
    match QueryValue(QueryOf(url), "id")
    case Some(v) => Some(v)
    case None => SearchId(url, 0)
  }

  /** A query with no '=' has no parameters. */
  lemma {:induction false} NoPairsWithoutEquals(pieces: seq<string>)
    requires forall i :: 0 <= i < |pieces| ==> '=' !in pieces[i]
    ensures DecodePieces(pieces) == []
  {
    if pieces != [] {
      NoPairsWithoutEquals(pieces[1..]);
    }
  }

  /** A query with no separator is one piece. */
  lemma OnePiece(q: string)
    requires '&' !in q && ';' !in q
    ensures ParseQsl(q) == DecodePiece(q)
  {
    var r := ReplaceChar(q, ';', '&');
    assert r == q by {
      assert forall k :: 0 <= k < |q| ==> r[k] == q[k];
    }
    assert SplitChar(q, '&') == [q];
    var none: seq<string> := [];
    assert [q][1..] == none;
    assert DecodePieces([q]) == DecodePiece(q) + DecodePieces(none);
  }

  lemma EmptyQuery()
    ensures ParseQsl([]) == []
  {
    OnePiece([]);
  }

  /** Text without '%' and '+' decodes to itself. */
  lemma {:induction false} UnquotePlain(t: string)
    requires '%' !in t && '+' !in t
    ensures UnquotePlus(t) == t
  {
    if t != [] {
      UnquotePlain(t[1..]);
      assert t == [t[0]] + t[1..];
    }
  }

  /** The first '=' of `name=value` is the one after the name. */
  lemma EqualsAfterName(name: string, value: string)
    requires '=' !in name
    ensures FirstIndex(name + "=" + value, '=') == |name|
  {
    var q := name + "=" + value;
    assert q[..|name|] == name && q[|name|] == '=';
  }

  /** A query of one `name=value` piece with no separators in it is that one pair. */
  lemma OnePieceQuery(name: string, value: string)
    requires name != [] && value != []
    requires '=' !in name && '&' !in name && ';' !in name && '&' !in value && ';' !in value
    ensures ParseQsl(name + "=" + value) == [(UnquotePlus(name), UnquotePlus(value))]
  {
    var q := name + "=" + value;
    OnePiece(q);
    EqualsAfterName(name, value);
    assert q[..|name|] == name && q[|name| + 1..] == value;
  }

  /** The id group of a link's last segment `/<digits><name>`. */
  lemma IdOfSegment(s: string, p: nat, id: string, slug: string)
    requires p < |s| && s[p] == '/' && s[p + 1..] == id + slug
    requires id != [] && AllDigits(id)
    requires slug != [] && !IsDigit(slug[0]) && forall k :: 0 <= k < |slug| ==> IsSlugChar(slug[k])
    ensures IdAt(s, p) == Some(id)
  {
    var t := id + slug;
    assert t[|t| - 1] == slug[|slug| - 1];
    assert BeforeFinalNewline(t) == t;
    assert forall k :: 0 <= k < |id| ==> t[k] == id[k];
    assert forall k :: |id| <= k < |t| ==> t[k] == slug[k - |id|];
    DigitRunLength(t, |id|);
    assert t[..|id|] == id;
  }

  /** Where one position matches, no other does. */
  lemma OtherPositionsMiss(s: string, p: nat, j: nat)
    requires p <= |s| && j <= |s| && j != p && IdAt(s, p).Some?
    ensures IdAt(s, j).None?
  {
    if j < p && IdAt(s, j).Some? {
      OnlyLastSlashMatches(s, j, p);
      assert false;
    } else if p < j {
      OnlyLastSlashMatches(s, p, j);
    }
  }

  /** A match anywhere is the one the search from the start finds. */
  lemma SearchFinds(s: string, p: nat, id: string)
    requires p <= |s| && IdAt(s, p) == Some(id)
    ensures SearchId(s, 0) == Some(id)
  {
    forall j | 0 <= j <= |s| && j != p
      ensures IdAt(s, j).None?
    {
      OtherPositionsMiss(s, p, j);
    }
  }

  /**
   * A member's link `<prefix>/<digits><name>` with no query gives the
   * digits back, when the name starts with a word or dash character that is
   * not a digit.
   */
  lemma PersonIdOfLink(prefix: string, id: string, slug: string)
    requires '?' !in prefix
    requires id != [] && AllDigits(id)
    requires slug != [] && !IsDigit(slug[0]) && forall k :: 0 <= k < |slug| ==> IsSlugChar(slug[k])
    ensures GetPersonId(prefix + "/" + id + slug) == Some(id)
  {
    var s := prefix + "/" + id + slug;
    var p := |prefix|;
    assert s[p] == '/' && s[p + 1..] == id + slug;
    assert '?' !in s by {
      assert forall k :: 0 <= k < |id| ==> id[k] != '?';
      assert forall k :: 0 <= k < |slug| ==> slug[k] != '?';
    }
    EmptyQuery();
    IdOfSegment(s, p, id, slug);
    SearchFinds(s, p, id);
  }

  /** A link whose query starts with the id gives the id's value. */
  lemma PersonIdOfQuery(head: string, id: string, rest: seq<(string, string)>)
    requires '?' !in head
    requires BytePairs([("id", id)] + rest)
    requires id != [] && forall i :: 0 <= i < |rest| ==> rest[i].1 != []
    ensures GetPersonId(head + "?" + UrlEncode([("id", id)] + rest)) == Some(id)
  {
    var q := [("id", id)] + rest;
    assert forall i :: 0 <= i < |q| ==> q[i].1 != [];
    QueryOfEncoded(head, q);
  }

  /** The whole link, parsed as a query, names its one parameter after the path. */
  lemma WholeLinkQuery(head: string, v: string)
    requires head != [] && v != []
    requires '?' !in head && '=' !in head && '&' !in head && ';' !in head && '%' !in head && '+' !in head
    requires '&' !in v && ';' !in v
    ensures QueryValue(head + "?" + "id" + "=" + v, "id") == None
  {
    var name := head + "?" + "id";
    assert '=' !in name && '&' !in name && ';' !in name && '%' !in name && '+' !in name;
    var pairs := ParseQsl(name + "=" + v);
    assert pairs == [(name, UnquotePlus(v))] by {
      OnePieceQuery(name, v);
      UnquotePlain(name);
    }
    assert name != "id" by { assert |name| > 2; }
    assert forall i :: 0 <= i < |pairs| ==> pairs[i].0 != "id";
  }

  /** The query part of a link `<head>?<name>=<value>` gives the value for the name. */
  lemma QueryPartValue(head: string, name: string, v: string)
    requires name != [] && v != [] && '?' !in head
    requires '=' !in name && '&' !in name && ';' !in name && '#' !in name && '%' !in name && '+' !in name
    requires '&' !in v && ';' !in v && '#' !in v
    ensures QueryValue(QueryOf(head + "?" + name + "=" + v), name) == Some(UnquotePlus(v))
  {
    var q := name + "=" + v;
    assert '#' !in q by {
      assert forall k :: 0 <= k < |q| ==> q[k] in name || q[k] == '=' || q[k] in v;
    }
    QueryAfter(head, q);
    Reassociate(head + "?", name, "=", v);
    OnePairValue(name, v);
  }

  /** `a + b + c + d` is `a + (b + c + d)`. */
  lemma Reassociate(a: string, b: string, c: string, d: string)
    ensures a + b + c + d == a + (b + c + d)
  {
  }

  /** The query `name=value` gives the value for the name. */
  lemma OnePairValue(name: string, v: string)
    requires name != [] && v != []
    requires '=' !in name && '&' !in name && ';' !in name && '%' !in name && '+' !in name
    requires '&' !in v && ';' !in v
    ensures QueryValue(name + "=" + v, name) == Some(UnquotePlus(v))
  {
    OnePieceQuery(name, v);
    UnquotePlain(name);
  }

  /** A text without a slash has no match. */
  lemma NoSlashNoId(s: string)
    requires '/' !in s
    ensures SearchId(s, 0) == None
  {
  }

  /**
   * The as-written parse reads the first query parameter of a link under a
   * name that ends in '?id', so a link whose query starts with the id and
   * has no slash gives no id.
   */
  lemma QueryIdMissedAsWritten(head: string, v: string)
    requires head != [] && v != []
    requires '/' !in head && '?' !in head && '=' !in head && '&' !in head && ';' !in head
    requires '%' !in head && '+' !in head
    requires '/' !in v && '&' !in v && ';' !in v
    ensures GetPersonIdAsWritten(head + "?" + "id" + "=" + v) == None
  {
    var url := head + "?" + "id" + "=" + v;
    WholeLinkQuery(head, v);
    assert '/' !in url by {
      assert forall k :: 0 <= k < |v| ==> v[k] != '/';
      assert forall k :: 0 <= k < |head| ==> head[k] != '/';
    }
    NoSlashNoId(url);
  }

  /** The name 'id' holds none of the characters a query treats specially. */
  lemma IdIsPlain()
    ensures '=' !in "id" && '&' !in "id" && ';' !in "id" && '#' !in "id" && '%' !in "id" && '+' !in "id"
  {
    assert "id" == ['i', 'd'];
  }

  /** The same link read through its query part gives the id. */
  lemma QueryIdFound(head: string, v: string)
    requires v != [] && '?' !in head
    requires '&' !in v && ';' !in v && '#' !in v
    ensures GetPersonId(head + "?" + "id" + "=" + v) == Some(UnquotePlus(v))
  {
    IdIsPlain();
    QueryPartValue(head, "id", v);
  }

  // ---------------------------------------------------------------------
  // parse_motions: grouping the rows of the motions table

  /**
   * One row of the motions table as the selectors see it: the texts of its
   * `.poslanici` cell (the motion's name, on a header row), the links of
   * the row, and the texts of its `.sjednica` cell (label and value, on an
   * info row).
   */
  datatype Row = Row(names: seq<string>, links: seq<string>, infos: seq<string>)

  const SiteRoot := "http://www.skupstina.me/"

  /** `[\w\ ]` as the selector's `re` compiles it, with the UNICODE flag: a character of an info row's label. */
  predicate IsLabelChar(c: char) { IsUnicodeWordChar(c) || c == ' ' }

  /** The length of the run of label characters that starts `s`. */
  function LabelRun(s: string): (n: nat)
    ensures n <= |s| && (forall i :: 0 <= i < n ==> IsLabelChar(s[i])) && (n < |s| ==> !IsLabelChar(s[n]))
  {
    if s != [] && IsLabelChar(s[0]) then 1 + LabelRun(s[1..]) else 0
  }

  lemma {:induction false} LabelRunLength(s: string, m: nat)
    requires m < |s| && (forall k :: 0 <= k < m ==> IsLabelChar(s[k])) && !IsLabelChar(s[m])
    ensures LabelRun(s) == m
  {
    if m > 0 {
      LabelRunLength(s[1..], m - 1);
    }
  }

  /**
   * `''.join(re.findall(r'([\w\ ]+):', s))`: every run of label characters
   * that a colon ends, concatenated. A run that no colon ends cannot match
   * from any of its positions, so the scan moves past it.
   */
  function LabelText(s: string): (r: string)
    ensures forall k :: 0 <= k < |r| ==> IsLabelChar(r[k])
    decreases |s|
  {
    if s == [] then []
    else
      var n := LabelRun(s);
      if n == 0 then LabelText(s[1..])
      else if n < |s| && s[n] == ':' then s[..n] + LabelText(s[n + 1..])
      else LabelText(s[n..])
  }

  /** A text with no colon has an empty label. */
  lemma {:induction false} NoColonNoLabel(s: string)
    requires ':' !in s
    ensures LabelText(s) == []
    decreases |s|
  {
    if s != [] {
      var n := LabelRun(s);
      if n == 0 {
        NoColonNoLabel(s[1..]);
      } else {
        assert n < |s| ==> s[n] != ':';
        NoColonNoLabel(s[n..]);
      }
    }
  }

  /** A colon is not a label character, so it ends the run. */
  lemma ColonEndsLabel()
    ensures !IsLabelChar(':')
  {
  }

  /** A label followed by a colon is read back. */
  lemma LabelOf(w: string)
    requires w != [] && forall k :: 0 <= k < |w| ==> IsLabelChar(w[k])
    ensures LabelText(w + ":") == w
  {
    var s := w + ":";
    assert forall k :: 0 <= k < |w| ==> s[k] == w[k];
    ColonEndsLabel();
    assert s[|w|] == ':';
    LabelRunLength(s, |w|);
    var n := |w|;
    assert s[..n] == w;
    assert s[n + 1..] == [];
    assert LabelText(s) == s[..n] + LabelText([]);
  }

  /** The key an info row sets: its label, lower-cased. */
  function InfoKey(row: Row): (k: string)
    requires row.infos != []
    ensures ':' !in row.infos[0] ==> k == []
  {
    if ':' !in row.infos[0] then
      NoColonNoLabel(row.infos[0]);
      Lower(LabelText(row.infos[0]))
    else Lower(LabelText(row.infos[0]))
  }

  /** An info row labelled `<w>:` sets the key `w` in lower case. */
  lemma KeyOfLabel(row: Row, w: string)
    requires row.infos != [] && row.infos[0] == w + ":"
    requires w != [] && forall k :: 0 <= k < |w| ==> IsLabelChar(w[k])
    ensures InfoKey(row) == Lower(w)
  {
    LabelOf(w);
  }

  /**
   * A label holding a Montenegrin letter is read whole: "Predlagač:" sets
   * the key "predlagač", its final 'č' kept, and with no value after it the
   * row is one the loop fails on.
   */
  lemma AccentedLabelKey()
    ensures var k := InfoKey(Row([], [], ["Predlagač:"]));
      k == Lower("Predlagač") && |k| == 9 && k[0] == 'p' && k[8] == '\U{010D}'
    ensures Malformed(Row([], [], ["Predlagač:"]))
  {
    var row := Row([], [], ["Predlagač:"]);
    AccentedLabelRead(row);
    var w := "Predlagač";
    assert |w| == 9 && w[0] == 'P' && w[8] == '\U{010D}';
    LowerEnds(w);
    KeyedWithoutValue(row);
  }

  lemma AccentedLabelRead(row: Row)
    requires row.infos == ["Predlagač:"]
    ensures InfoKey(row) == Lower("Predlagač")
  {
    var w := "Predlagač";
    assert w + ":" == "Predlagač:";
    assert forall k :: 0 <= k < |w| ==> IsLabelChar(w[k]);
    KeyOfLabel(row, w);
  }

  /** Lower-casing lowers an initial 'P' and keeps a final 'č'. */
  lemma LowerEnds(w: string)
    requires |w| == 9 && w[0] == 'P' && w[8] == '\U{010D}'
    ensures var k := Lower(w); |k| == 9 && k[0] == 'p' && k[8] == '\U{010D}'
  {
    assert LowerChar('P') == 'p' && LowerChar('\U{010D}') == '\U{010D}';
  }

  /** An info row with a key and a single text is one the loop fails on. */
  lemma KeyedWithoutValue(row: Row)
    requires row.names == [] && |row.infos| == 1 && InfoKey(row) != []
    ensures Malformed(row)
  {
  }

  /** The labels the loader looks for, 'Status' and 'Datum', give the keys it copies. */
  lemma KnownLabels()
    ensures Lower("Status") == "status" && Lower("Datum") == "datum"
  {
    assert LowerChar('S') == 's' && LowerChar('D') == 'd';
  }

  /** An info row that sets key `k`. */
  predicate SetsKey(row: Row, k: string) {
    row.names == [] && |row.infos| >= 2 && k != [] && InfoKey(row) == k
  }

  /** A header row without a link, or an info row with a key but no value: the loop fails on it. */
  predicate Malformed(row: Row) {
    if row.names != [] then row.links == []
    else row.infos != [] && InfoKey(row) != [] && |row.infos| < 2
  }

  /** The source URL of a header row: its link joined to the site root. */
  function SourceUrl(link: string): (url: string)
    ensures EndsWith(url, link)
  {
    UrlJoin(SiteRoot, link)
  }

  /** The record a header row starts: the motion's name and its source URL. */
  function HeaderRecord(name: string, url: string): (m: Record)
    ensures m.Keys == {"name", "sources"}
  {
    map["name" := Str(name), "sources" := Arr([Str(url)])]
  }

  /**
   * The grouping loop from a row on, given the record being built and the
   * records done: a header row appends the current record when it is not
   * empty and starts a new one; an info row with a key sets that key in
   * the current record; other rows change nothing. At the end, the current
   * record is appended when it is not empty.
   */
  function GroupFrom(rows: seq<Row>, current: Record, done: seq<Record>): (r: Result<seq<Record>>)
    ensures r.Err? ==> r.error == IndexError
    decreases |rows|
  {
    if rows == [] then Ok(if current != map[] then done + [current] else done)
    else
      var row := rows[0];
      if row.names != [] then
        if row.links == [] then Err(IndexError)
        else
          var done' := if current != map[] then done + [current] else done;
          GroupFrom(rows[1..], HeaderRecord(row.names[0], SourceUrl(row.links[0])), done')
      else if row.infos != [] && InfoKey(row) != [] then
        if |row.infos| < 2 then Err(IndexError)
        else GroupFrom(rows[1..], current[InfoKey(row) := Str(row.infos[1])], done)
      else GroupFrom(rows[1..], current, done)
  }

  /** The motion records of a table's rows. */
  function Group(rows: seq<Row>): Result<seq<Record>> {
    GroupFrom(rows, map[], [])
  }

  /** The row loop of `parse_motions`. */
  method GroupMotions(rows: seq<Row>) returns (r: Result<seq<Record>>)
    ensures r == Group(rows)
  {
    var motions: seq<Record> := [];
    var current: Record := map[];
    var i := 0;
    while i < |rows|
      invariant 0 <= i <= |rows|
      invariant GroupFrom(rows[i..], current, motions) == Group(rows)
    {
      var row := rows[i];
      assert rows[i..][0] == row && rows[i..][1..] == rows[i + 1..];
      if row.names != [] {
        if current != map[] {
          motions := motions + [current];
        }
        if row.links == [] {
          return Err(IndexError);
        }
        current := HeaderRecord(row.names[0], SourceUrl(row.links[0]));
      } else if row.infos != [] {
        var key := InfoKey(row);
        if key != [] {
          if |row.infos| < 2 {
            return Err(IndexError);
          }
          current := current[key := Str(row.infos[1])];
        }
      }
      i := i + 1;
    }
    if current != map[] {
      motions := motions + [current];
    }
    return Ok(motions);
  }

  /** The loop fails exactly when some row is malformed. */
  lemma {:induction false} GroupFails(rows: seq<Row>, current: Record, done: seq<Record>)
    ensures GroupFrom(rows, current, done).Err? <==> exists i :: 0 <= i < |rows| && Malformed(rows[i])
    decreases |rows|
  {
    if rows != [] {
      var row := rows[0];
      if !Malformed(row) {
        var current' :=
          if row.names != [] then HeaderRecord(row.names[0], SourceUrl(row.links[0]))
          else if row.infos != [] && InfoKey(row) != [] then current[InfoKey(row) := Str(row.infos[1])]
          else current;
        var done' := if row.names != [] && current != map[] then done + [current] else done;
        assert GroupFrom(rows, current, done) == GroupFrom(rows[1..], current', done');
        GroupFails(rows[1..], current', done');
        MalformedAfterFirst(rows);
      }
    }
  }

  /** Past a well-formed first row, the malformed rows are those of the rest. */
  lemma MalformedAfterFirst(rows: seq<Row>)
    requires rows != [] && !Malformed(rows[0])
    ensures (exists i :: 0 <= i < |rows| && Malformed(rows[i]))
      <==> (exists i :: 0 <= i < |rows[1..]| && Malformed(rows[1..][i]))
  {
    if exists i :: 0 <= i < |rows| && Malformed(rows[i]) {
      var i :| 0 <= i < |rows| && Malformed(rows[i]);
      assert rows[1..][i - 1] == rows[i];
    }
  }

  /** Rows none of which the loop fails on. */
  predicate WellFormedRows(rows: seq<Row>) {
    forall i :: 0 <= i < |rows| ==> !Malformed(rows[i])
  }

  /** The name of each header row, with its source URL. */
  function Headers(rows: seq<Row>): (hs: seq<(string, string)>)
    requires WellFormedRows(rows)
    ensures |hs| <= |rows|
  {
    if rows == [] then []
    else
      assert !Malformed(rows[0]);
      assert forall i :: 0 <= i < |rows[1..]| ==> rows[1..][i] == rows[i + 1];
      var rest := Headers(rows[1..]);
      if rows[0].names != [] then [(rows[0].names[0], SourceUrl(rows[0].links[0]))] + rest else rest
  }

  /** Two records with the same name and sources. */
  predicate SameHeader(m: Record, c: Record) {
    "name" in m && "sources" in m && "name" in c && "sources" in c
    && m["name"] == c["name"] && m["sources"] == c["sources"]
  }

  /** A record that carries a header's name and source. */
  predicate Carries(m: Record, h: (string, string)) {
    SameHeader(m, HeaderRecord(h.0, h.1))
  }

  /** Records that carry the headers, one each, in order. */
  predicate CarriesAll(ms: seq<Record>, hs: seq<(string, string)>) {
    |ms| == |hs| && forall j :: 0 <= j < |hs| ==> Carries(ms[j], hs[j])
  }

  lemma CarriesCons(ms: seq<Record>, k: nat, h: (string, string), hs: seq<(string, string)>)
    requires k < |ms| && Carries(ms[k], h) && CarriesAll(ms[k + 1..], hs)
    ensures CarriesAll(ms[k..], [h] + hs)
  {
    var hs' := [h] + hs;
    forall j | 0 <= j < |hs'|
      ensures Carries(ms[k..][j], hs'[j])
    {
      if j > 0 {
        assert ms[k..][j] == ms[k + 1..][j - 1] && hs'[j] == hs[j - 1];
      }
    }
  }

  /** Info rows never set the keys a header row sets. */
  predicate KeepsHeaderKeys(rows: seq<Row>) {
    forall i :: 0 <= i < |rows| ==> !SetsKey(rows[i], "name") && !SetsKey(rows[i], "sources")
  }

  /** What the loop gives from a point on: the records done, the one being built, one per header. */
  predicate HeadersFrom(ms: seq<Record>, current: Record, done: seq<Record>, hs: seq<(string, string)>) {
    var c := if current != map[] then 1 else 0;
    |ms| >= |done| + c && ms[..|done|] == done
    && (current != map[] ==> SameHeader(ms[|done|], current))
    && CarriesAll(ms[|done| + c..], hs)
  }

  /** A header row: the record being built joins the records done, and the header's record is next. */
  lemma HeaderStep(ms: seq<Record>, current: Record, done: seq<Record>, h: (string, string), hs: seq<(string, string)>)
    requires var done' := if current != map[] then done + [current] else done;
      HeadersFrom(ms, HeaderRecord(h.0, h.1), done', hs)
    requires current != map[] ==> "name" in current && "sources" in current
    ensures HeadersFrom(ms, current, done, [h] + hs)
  {
    var done' := if current != map[] then done + [current] else done;
    var c := if current != map[] then 1 else 0;
    var hr := HeaderRecord(h.0, h.1);
    assert "name" in hr;
    assert |done'| == |done| + c && |ms| >= |done'| + 1;
    assert ms[..|done|] == ms[..|done'|][..|done|];
    if current != map[] {
      assert ms[|done|] == ms[..|done'|][|done|] == current;
    }
    assert SameHeader(ms[|done'|], hr);
    CarriesCons(ms, |done'|, h, hs);
  }

  lemma {:induction false} GroupFromHeaders(rows: seq<Row>, current: Record, done: seq<Record>)
    requires WellFormedRows(rows)
    requires KeepsHeaderKeys(rows)
    requires current == map[] ==> rows == [] || rows[0].names != []
    requires current != map[] ==> "name" in current && "sources" in current
    ensures GroupFrom(rows, current, done).Ok?
    ensures HeadersFrom(GroupFrom(rows, current, done).value, current, done, Headers(rows))
    decreases |rows|
  {
    if rows == [] {
      var ms := GroupFrom(rows, current, done).value;
      assert ms[..|done|] == done;
    } else {
      var row := rows[0];
      var tail := rows[1..];
      assert !Malformed(row) && !SetsKey(row, "name") && !SetsKey(row, "sources");
      assert forall i :: 0 <= i < |tail| ==> tail[i] == rows[i + 1];
      if row.names != [] {
        var done' := if current != map[] then done + [current] else done;
        var h := (row.names[0], SourceUrl(row.links[0]));
        var hr := HeaderRecord(h.0, h.1);
        assert GroupFrom(rows, current, done) == GroupFrom(tail, hr, done');
        assert Headers(rows) == [h] + Headers(tail);
        GroupFromHeaders(tail, hr, done');
        HeaderStep(GroupFrom(tail, hr, done').value, current, done, h, Headers(tail));
      } else if row.infos != [] && InfoKey(row) != [] {
        var current' := current[InfoKey(row) := Str(row.infos[1])];
        assert GroupFrom(rows, current, done) == GroupFrom(tail, current', done);
        assert Headers(rows) == Headers(tail);
        GroupFromHeaders(tail, current', done);
      } else {
        assert GroupFrom(rows, current, done) == GroupFrom(tail, current, done);
        assert Headers(rows) == Headers(tail);
        GroupFromHeaders(tail, current, done);
      }
    }
  }

  /**
   * A table that starts with a header row, whose rows are well formed and
   * whose labels never name a header key, gives one motion per header row,
   * in row order, each carrying its header's name and source.
   */
  lemma MotionsFollowHeaders(rows: seq<Row>)
    requires WellFormedRows(rows)
    requires KeepsHeaderKeys(rows)
    requires rows == [] || rows[0].names != []
    ensures Group(rows).Ok? && CarriesAll(Group(rows).value, Headers(rows))
  {
    GroupFromHeaders(rows, map[], []);
    HeadersFromStart(GroupFrom(rows, map[], []).value, Headers(rows));
  }

  /** From the start, with nothing done and nothing being built, the records carry the headers. */
  lemma HeadersFromStart(ms: seq<Record>, hs: seq<(string, string)>)
    requires HeadersFrom(ms, map[], [], hs)
    ensures CarriesAll(ms, hs)
  {
    assert ms[0..] == ms;
  }

  /**
   * The value the last of some rows that sets key `k` gives it, if any row
   * does: read from the back, the first row that sets it.
   */
  function LastSet(rows: seq<Row>, k: string): Option<string>
  {
    if rows == [] then None
    else
      var last := rows[|rows| - 1];
      if SetsKey(last, k) then Some(last.infos[1])
      else LastSet(rows[..|rows| - 1], k)
  }

  /** The value found is the one of the last row that sets the key, and there is none when no row does. */
  lemma {:induction false} LastSetMeans(rows: seq<Row>, k: string)
    ensures var v := LastSet(rows, k);
      (v.None? <==> forall i :: 0 <= i < |rows| ==> !SetsKey(rows[i], k))
      && (v.Some? ==> exists i :: 0 <= i < |rows| && SetsKey(rows[i], k) && v.value == rows[i].infos[1]
                                  && forall j :: i < j < |rows| ==> !SetsKey(rows[j], k))
    decreases |rows|
  {
    if rows != [] && !SetsKey(rows[|rows| - 1], k) {
      var init := rows[..|rows| - 1];
      LastSetMeans(init, k);
      assert forall i :: 0 <= i < |init| ==> init[i] == rows[i];
    }
  }

  /** Reading the rows from the front: a later row that sets the key wins over the first. */
  lemma {:induction false} LastSetFront(rows: seq<Row>, k: string)
    requires rows != []
    ensures LastSet(rows, k)
      == if LastSet(rows[1..], k).Some? then LastSet(rows[1..], k)
         else if SetsKey(rows[0], k) then Some(rows[0].infos[1]) else None
    decreases |rows|
  {
    if |rows| > 1 {
      var init := rows[..|rows| - 1];
      assert init[1..] == rows[1..][..|rows[1..]| - 1];
      assert rows[1..][|rows[1..]| - 1] == rows[|rows| - 1];
      assert init[0] == rows[0];
      LastSetFront(init, k);
    } else {
      var none: seq<Row> := [];
      assert rows[1..] == none;
      assert rows[..|rows| - 1] == none;
    }
  }

  /**
   * Within one motion (the info rows after its header), a key is set when
   * it was already set or some row sets it; its value is the last such
   * row's value, or the one it had.
   */
  lemma {:induction false} InfoRowsSet(rows: seq<Row>, current: Record, done: seq<Record>, k: string)
    requires current != map[]
    requires forall i :: 0 <= i < |rows| ==> rows[i].names == [] && !Malformed(rows[i])
    ensures GroupFrom(rows, current, done) == Ok(done + [InfoRecord(current, rows)])
    ensures var m := InfoRecord(current, rows);
      (k in m <==> k in current || LastSet(rows, k).Some?)
      && (LastSet(rows, k).Some? ==> m[k] == Str(LastSet(rows, k).value))
      && (LastSet(rows, k).None? && k in current ==> m[k] == current[k])
    decreases |rows|
  {
    if rows != [] {
      var row := rows[0];
      var tail := rows[1..];
      assert row.names == [] && !Malformed(row);
      assert forall i :: 0 <= i < |tail| ==> tail[i] == rows[i + 1];
      var current' := if row.infos != [] && InfoKey(row) != [] then current[InfoKey(row) := Str(row.infos[1])] else current;
      InfoRowsSet(tail, current', done, k);
      LastSetFront(rows, k);
    }
  }

  /** The record being built after some info rows. */
  function InfoRecord(current: Record, rows: seq<Row>): Record
    requires forall i :: 0 <= i < |rows| ==> rows[i].names == [] && !Malformed(rows[i])
    decreases |rows|
  {
    if rows == [] then current
    else
      var row := rows[0];
      assert !Malformed(row);
      assert forall i :: 0 <= i < |rows[1..]| ==> rows[1..][i] == rows[i + 1];
      InfoRecord(if row.infos != [] && InfoKey(row) != [] then current[InfoKey(row) := Str(row.infos[1])] else current, rows[1..])
  }

  /**
   * A header row followed by info rows makes one motion whose keys are the
   * header's and the keys the rows set, each with the last value given.
   */
  lemma OneMotion(header: Row, infos: seq<Row>, k: string)
    requires header.names != [] && header.links != []
    requires forall i :: 0 <= i < |infos| ==> infos[i].names == [] && !Malformed(infos[i])
    ensures Group([header] + infos).Ok? && |Group([header] + infos).value| == 1
    ensures var m := Group([header] + infos).value[0];
      (k in m <==> k in {"name", "sources"} || LastSet(infos, k).Some?)
      && (LastSet(infos, k).Some? ==> m[k] == Str(LastSet(infos, k).value))
  {
    var rows := [header] + infos;
    assert rows[0] == header && rows[1..] == infos;
    var h := HeaderRecord(header.names[0], SourceUrl(header.links[0]));
    assert Group(rows) == GroupFrom(infos, h, []);
    InfoRowsSet(infos, h, [], k);
  }

  /**
   * An info row before the first header fills a record with no name, which
   * is kept as a motion of its own.
   */
  lemma LeadingInfoKept(info: Row, rest: seq<Row>)
    requires info.names == [] && |info.infos| >= 2 && InfoKey(info) != [] && InfoKey(info) != "name"
    requires LastSet(rest, "name").None?
    requires Group([info] + rest).Ok?
    ensures Group([info] + rest).value != [] && "name" !in Group([info] + rest).value[0]
  {
    var rows := [info] + rest;
    assert rows[0] == info && rows[1..] == rest;
    var m: Record := map[InfoKey(info) := Str(info.infos[1])];
    assert InfoKey(info) in m;
    assert Group(rows) == GroupFrom(rest, m, []);
    FirstRecordKept(rest, m, [], "name");
  }

  /** A non-empty record being built is the next one appended, without keys no row sets. */
  lemma {:induction false} FirstRecordKept(rows: seq<Row>, current: Record, done: seq<Record>, k: string)
    requires current != map[] && GroupFrom(rows, current, done).Ok?
    requires k !in current && LastSet(rows, k).None?
    ensures var ms := GroupFrom(rows, current, done).value;
      |ms| > |done| && k !in ms[|done|]
    decreases |rows|
  {
    if rows == [] {
      assert GroupFrom(rows, current, done) == Ok(done + [current]);
    } else {
      var row := rows[0];
      var tail := rows[1..];
      LastSetFront(rows, k);
      if row.names != [] {
        var h := HeaderRecord(row.names[0], SourceUrl(row.links[0]));
        assert GroupFrom(rows, current, done) == GroupFrom(tail, h, done + [current]);
        GroupPrefix(tail, h, done + [current]);
        var ms := GroupFrom(tail, h, done + [current]).value;
        assert ms[|done|] == ms[..|done| + 1][|done|];
      } else if row.infos != [] && InfoKey(row) != [] {
        var current' := current[InfoKey(row) := Str(row.infos[1])];
        assert GroupFrom(rows, current, done) == GroupFrom(tail, current', done);
        assert !SetsKey(row, k);
        FirstRecordKept(tail, current', done, k);
      } else {
        assert GroupFrom(rows, current, done) == GroupFrom(tail, current, done);
        FirstRecordKept(tail, current, done, k);
      }
    }
  }

  /** The records done stay in front, in order. */
  lemma {:induction false} GroupPrefix(rows: seq<Row>, current: Record, done: seq<Record>)
    requires GroupFrom(rows, current, done).Ok?
    ensures var ms := GroupFrom(rows, current, done).value;
      |ms| >= |done| && ms[..|done|] == done
    decreases |rows|
  {
    if rows != [] {
      var row := rows[0];
      var tail := rows[1..];
      if row.names != [] {
        var done' := if current != map[] then done + [current] else done;
        GroupPrefix(tail, HeaderRecord(row.names[0], SourceUrl(row.links[0])), done');
        var ms := GroupFrom(tail, HeaderRecord(row.names[0], SourceUrl(row.links[0])), done').value;
        assert ms[..|done|] == ms[..|done'|][..|done|];
      } else if row.infos != [] && InfoKey(row) != [] {
        GroupPrefix(tail, current[InfoKey(row) := Str(row.infos[1])], done);
      } else {
        GroupPrefix(tail, current, done);
      }
    } else {
      var ms := GroupFrom(rows, current, done).value;
      assert ms[..|done|] == done;
    }
  }

  // ---------------------------------------------------------------------
  // parse_motions: loading the motions

  /** `add_value(field, v)`: a list gives its items, None nothing, anything else itself. */
  function AddedValues(v: Value): (vs: seq<Value>)
    ensures v.Str? ==> vs == [v]
  {
    match v
    case Null => []
    case Arr(xs) => xs
    case _ => [v]
  }

  /** `result_in`: a result through the result table; one the table does not know is dropped. */
  function ResultIn(v: Value): (r: Result<seq<Value>>)
    ensures r.Ok? <==> v.Str?
    ensures r.Ok? ==> |r.value| <= 1
  {
    if !v.Str? then Err(AttributeError)
    else
      match Loaders.Translate(v.s, Loaders.SkupstinaMeResultOptions, true)
      case Some(t) => Ok([Str(t)])
      case None => Ok([])
  }

  /** `date_in`: a day.month.year date, as an ISO date and time. */
  function DateIn(v: Value): (r: Result<seq<Value>>)
    ensures r.Ok? <==> v.Str? && Loaders.MeToIsoDateTime(v.s).Ok?
    ensures r.Ok? ==> r.value == [Str(Loaders.MeToIsoDateTime(v.s).value)]
  {
    if !v.Str? then Err(TypeError)
    else
      var d :- Loaders.MeToIsoDateTime(v.s);
      Ok([Str(d)])
  }

  /**
   * The `add_value` call for one copied key: made only when the record's
   * value is non-empty, with the field's input processor applied.
   */
  function CopiedKey(m: Record, key: string, field: string, values: Result<seq<Value>>): (r: Result<seq<(string, seq<Value>)>>)
    ensures r.Ok? ==> |r.value| <= 1 && forall i :: 0 <= i < |r.value| ==> r.value[i].0 == field
    ensures !Truthy(Get(m, key)) ==> r == Ok([])
    ensures Truthy(Get(m, key)) && values.Ok? ==> r == Ok([(field, values.value)])
    ensures Truthy(Get(m, key)) && values.Err? ==> r == Err(values.error)
  {
    if Truthy(Get(m, key)) then
      var xs :- values;
      Ok([(field, xs)])
    else Ok([])
  }

  /**
   * The copied keys: 'status' fills the result and 'datum' the date (the two
   * `add_value` calls touch different fields, so their order does not matter).
   */
  function CopiedValues(m: Record, rs: Result<seq<Value>>, ds: Result<seq<Value>>): (r: Result<seq<(string, seq<Value>)>>)
    ensures r.Ok? ==> forall i :: 0 <= i < |r.value| ==> r.value[i].0 in CopiedFields
  {
    var result :- CopiedKey(m, "status", "result", rs);
    var date :- CopiedKey(m, "datum", "date", ds);
    Ok(result + date)
  }

  /**
   * The `add_value` calls of one motion: its name as text, its sources, the
   * copied keys, given what the result and date processors make of them.
   */
  function MotionAdded(m: Record, rs: Result<seq<Value>>, ds: Result<seq<Value>>): Result<seq<(string, seq<Value>)>> {
    var name :- Lookup(m, "name");
    var sources :- Lookup(m, "sources");
    var copied :- CopiedValues(m, rs, ds);
    Ok([("text", AddedValues(name)), ("sources", AddedValues(sources))] + copied)
  }

  /** The Motion item loaded from a record, given the processed result and date. */
  function MotionItemWith(m: Record, rs: Result<seq<Value>>, ds: Result<seq<Value>>): Result<Record> {
    var added :- MotionAdded(m, rs, ds);
    LoadItem(Motion, map[], added, map[], Identity)
  }

  /** The Motion item `load_item()` gives for one record. */
  function MotionItem(m: Record): Result<Record> {
    MotionItemWith(m, ResultIn(Get(m, "status")), DateIn(Get(m, "datum")))
  }

  /** A record without a name fails the loop with a KeyError. */
  lemma NamelessMotionFails(m: Record)
    requires "name" !in m
    ensures MotionItem(m) == Err(KeyError("name"))
  {
  }

  /**
   * A generator that yields one item per input until one raises: the items
   * yielded, in order, and how it ended.
   */
  function Yielded<T>(results: seq<Result<T>>): (r: (seq<T>, Outcome))
    ensures |r.0| <= |results|
    ensures forall i :: 0 <= i < |r.0| ==> results[i] == Ok(r.0[i])
    ensures r.1.Pass? <==> |r.0| == |results|
    ensures r.1.Fail? ==> results[|r.0|] == Err(r.1.error)
    decreases |results|
  {
    if results == [] then ([], Pass)
    else if results[0].Err? then ([], Fail(results[0].error))
    else
      var rest := Yielded(results[1..]);
      assert forall i :: 0 <= i < |rest.0| ==> results[1..][i] == results[i + 1];
      ([results[0].value] + rest.0, rest.1)
  }

  /** The Motion item of each record, in order. */
  function MotionItems(ms: seq<Record>): (rs: seq<Result<Record>>)
    ensures |rs| == |ms| && forall i :: 0 <= i < |ms| ==> rs[i] == MotionItem(ms[i])
  {
    seq(|ms|, i requires 0 <= i < |ms| => MotionItem(ms[i]))
  }

  /**
   * `parse_motions`: the rows grouped into records, then a Motion loaded from
   * each, yielded in order until one raises.
   */
  function ParseMotions(rows: seq<Row>): (seq<Record>, Outcome) {
    match Group(rows)
    case Err(e) => ([], Fail(e))
    case Ok(ms) => Yielded(MotionItems(ms))
  }

  /**
   * An info row before the first header makes a record with no name, the
   * first one loaded: the page yields no motion and fails with a KeyError.
   */
  lemma LeadingInfoStops(info: Row, rest: seq<Row>)
    requires info.names == [] && |info.infos| >= 2 && InfoKey(info) != [] && InfoKey(info) != "name"
    requires LastSet(rest, "name").None?
    requires Group([info] + rest).Ok?
    ensures ParseMotions([info] + rest) == ([], Fail(KeyError("name")))
  {
    LeadingInfoKept(info, rest);
    NamelessMotionFails(Group([info] + rest).value[0]);
  }

  /** The fields a copied key can fill. */
  const CopiedFields: set<string> := {"result", "date"}

  /** The fields a motion's loader is given values for. */
  const MotionFieldNames: set<string> := {"text", "sources"} + CopiedFields

  /** Fields given to a loader, two first and then the rest, all among `fields`. */
  lemma AddedFieldsWithin(a: (string, seq<Value>), b: (string, seq<Value>), rest: seq<(string, seq<Value>)>,
                          fields: set<string>)
    requires a.0 in fields && b.0 in fields && forall i :: 0 <= i < |rest| ==> rest[i].0 in fields
    ensures AddedFields([a, b] + rest) <= fields
  {
    var added := [a, b] + rest;
    assert forall i :: 2 <= i < |added| ==> added[i] == rest[i - 2];
  }

  /** A loaded motion only sets its text, sources, result and date, all fields a Motion declares. */
  lemma MotionFields(m: Record)
    ensures MotionItem(m).Ok? ==> MotionItem(m).value.Keys <= MotionFieldNames
    ensures MotionItem(m).Ok? ==> Fits(Motion, MotionItem(m).value)
  {
    var added := MotionAdded(m, ResultIn(Get(m, "status")), DateIn(Get(m, "datum")));
    if added.Ok? {
      var copied := CopiedValues(m, ResultIn(Get(m, "status")), DateIn(Get(m, "datum"))).value;
      assert "text" in MotionFieldNames && "sources" in MotionFieldNames && CopiedFields <= MotionFieldNames;
      AddedFieldsWithin(("text", AddedValues(m["name"])), ("sources", AddedValues(m["sources"])), copied, MotionFieldNames);
      MotionFieldsDeclared();
    }
  }

  lemma MotionFieldsDeclared()
    ensures MotionFieldNames <= Fields(Motion)
  {
    var f := Fields(Motion);
    assert "text" in f && "sources" in f && "result" in f && "date" in f;
  }

  /** The motion fields, set one after the other. */
  function MotionRecord(text: Option<Value>, sources: Value, result: Option<Value>, date: Option<Value>): Record {
    var m0: Record := if text.Some? then map["text" := text.value] else map[];
    var m1 := m0["sources" := sources];
    var m2 := if result.Some? then m1["result" := result.value] else m1;
    if date.Some? then m2["date" := date.value] else m2
  }

  lemma MotionRecordShape(text: Option<Value>, sources: Value, result: Option<Value>, date: Option<Value>)
    ensures var p := MotionRecord(text, sources, result, date);
      ("text" in p <==> text.Some?) && (text.Some? ==> p["text"] == text.value)
      && "sources" in p && p["sources"] == sources
      && ("result" in p <==> result.Some?) && (result.Some? ==> p["result"] == result.value)
      && ("date" in p <==> date.Some?) && (date.Some? ==> p["date"] == date.value)
  {
    assert "text"[0] != "sources"[0] && "result"[0] != "sources"[0] && "date"[0] != "sources"[0];
    assert "text"[0] != "result"[0] && "text"[0] != "date"[0] && "result"[0] != "date"[0];
  }

  /** A field with no processor of its own, loaded before the rest. */
  lemma LoadSteps(item: Record, field: string, values: seq<Value>, rest: seq<(string, seq<Value>)>, v: Option<Value>)
    requires FieldInput(Motion, field) == LoaderDefault && !ListOutput(Motion, field)
    requires v == TakeFirst(values)
    ensures LoadItem(Motion, item, [(field, values)] + rest, map[], Identity)
      == LoadItem(Motion, if values != [] && v.Some? then item[field := v.value] else item, rest, map[], Identity)
  {
    IdentityInput(values, map[]);
    LoadItemStep(Motion, item, field, values, rest, map[], Identity, v);
  }

  /** The value a copied key leaves in its field: its processed value, if the key's value is non-empty. */
  function CopiedField(m: Record, key: string, values: Result<seq<Value>>): Option<Value>
    requires values.Ok?
  {
    if Truthy(Get(m, key)) then TakeFirst(values.value) else None
  }

  /** Loading a motion record whose copied values are accepted. */
  lemma MotionLoaded(m: Record)
    requires "name" in m && m["name"].Str? && "sources" in m && AddedValues(m["sources"]) != []
    requires ResultIn(Get(m, "status")).Ok? && DateIn(Get(m, "datum")).Ok?
    ensures MotionItem(m) == Ok(MotionRecord(
      TakeFirst([m["name"]]), Arr(UrlRecords(AddedValues(m["sources"]))),
      CopiedField(m, "status", ResultIn(Get(m, "status"))), CopiedField(m, "datum", DateIn(Get(m, "datum")))))
  {
    MotionLoadedWith(m, ResultIn(Get(m, "status")), DateIn(Get(m, "datum")));
  }

  /** `MotionLoaded`, for any accepted result and date. */
  lemma MotionLoadedWith(m: Record, rs: Result<seq<Value>>, ds: Result<seq<Value>>)
    requires "name" in m && m["name"].Str? && "sources" in m && AddedValues(m["sources"]) != []
    requires rs.Ok? && ds.Ok?
    ensures MotionItemWith(m, rs, ds) == Ok(MotionRecord(
      TakeFirst([m["name"]]), Arr(UrlRecords(AddedValues(m["sources"]))),
      CopiedField(m, "status", rs), CopiedField(m, "datum", ds)))
  {
    var name := m["name"];
    var sources := AddedValues(m["sources"]);
    var copied := CopiedValues(m, rs, ds).value;
    var added := [("text", [name]), ("sources", sources)] + copied;
    assert MotionAdded(m, rs, ds) == Ok(added);
    var text := TakeFirst([name]);
    var item0: Record := if text.Some? then map["text" := text.value] else map[];
    PlainCopiedFields();
    LoadSteps(map[], "text", [name], [("sources", sources)] + copied, text);
    assert added == [("text", [name])] + ([("sources", sources)] + copied);
    var srcs := Arr(UrlRecords(sources));
    UrlRecordsApplied(sources, map[], Identity);
    LoadItemStep(Motion, item0, "sources", sources, copied, map[], Identity, Some(srcs));
    CopiedLoaded(m, item0["sources" := srcs], rs, ds);
  }

  /** Loading the copied keys onto what the name and the sources left. */
  lemma CopiedLoaded(m: Record, item: Record, rs: Result<seq<Value>>, ds: Result<seq<Value>>)
    requires rs.Ok? && ds.Ok?
    ensures var result := CopiedField(m, "status", rs);
      var date := CopiedField(m, "datum", ds);
      var item2 := if result.Some? then item["result" := result.value] else item;
      LoadItem(Motion, item, CopiedValues(m, rs, ds).value, map[], Identity)
      == Ok(if date.Some? then item2["date" := date.value] else item2)
  {
    var dv := CopiedKey(m, "datum", "date", ds).value;
    var result := CopiedField(m, "status", rs);
    var item2 := if result.Some? then item["result" := result.value] else item;
    PlainCopiedFields();
    CopiedStep(m, "status", "result", rs, item, dv);
    CopiedStep(m, "datum", "date", ds, item2, []);
    assert dv + [] == dv;
  }

  /** Loading a copied key's field, before the rest. */
  lemma CopiedStep(m: Record, key: string, field: string, values: Result<seq<Value>>, item: Record,
                   rest: seq<(string, seq<Value>)>)
    requires values.Ok? && FieldInput(Motion, field) == LoaderDefault && !ListOutput(Motion, field)
    ensures var v := CopiedField(m, key, values);
      LoadItem(Motion, item, CopiedKey(m, key, field, values).value + rest, map[], Identity)
      == LoadItem(Motion, if v.Some? then item[field := v.value] else item, rest, map[], Identity)
  {
    if Truthy(Get(m, key)) {
      LoadSteps(item, field, values.value, rest, CopiedField(m, key, values));
    } else {
      assert [] + rest == rest;
    }
  }

  /** The result and date fields are plain: no processor of the item's own, and `TakeFirst()`. */
  lemma PlainCopiedFields()
    ensures FieldInput(Motion, "result") == LoaderDefault && !ListOutput(Motion, "result")
    ensures FieldInput(Motion, "date") == LoaderDefault && !ListOutput(Motion, "date")
    ensures FieldInput(Motion, "text") == LoaderDefault && !ListOutput(Motion, "text")
  {
  }

  // ---------------------------------------------------------------------
  // make_requests_from_iterable

  /** The callbacks the spider hands its link requests to. */
  datatype Callback = ParsePerson | ParseCommitee

  /** A request for a page, with the callback that parses it. */
  datatype Request = Request(url: string, callback: Callback)

  /** A link's URL: resolved against the base when there is a non-empty one, as it is otherwise. */
  function RequestUrl(base: Option<string>, link: string): (u: string)
    ensures EndsWith(u, link)
    ensures base.None? || base.value == [] || HasAuthority(link) ==> u == link
  {
    if base.Some? && base.value != [] then UrlJoin(base.value, link) else link
  }

  /** The requests for some links, one per link, in order. */
  function Requests(urls: seq<string>, base: Option<string>, callback: Callback): (rs: seq<Request>)
    ensures |rs| == |urls|
    ensures forall i :: 0 <= i < |urls| ==>
      rs[i].callback == callback && EndsWith(rs[i].url, urls[i])
      && (base.None? || HasAuthority(urls[i]) ==> rs[i].url == urls[i])
  {
    seq(|urls|, i requires 0 <= i < |urls| => Request(RequestUrl(base, urls[i]), callback))
  }

  /** `make_requests_from_iterable`: one request per link, each resolved against the base. */
  method MakeRequests(urls: seq<string>, base: Option<string>, callback: Callback) returns (rs: seq<Request>)
    ensures rs == Requests(urls, base, callback)
  {
    rs := [];
    var i := 0;
    while i < |urls|
      invariant i <= |urls|
      invariant rs == Requests(urls[..i], base, callback)
    {
      var url := urls[i];
      if base.Some? && base.value != [] {
        url := UrlJoin(base.value, url);
      }
      assert url == RequestUrl(base, urls[i]);
      RequestsPrefix(urls, i, base, callback);
      rs := rs + [Request(url, callback)];
      i := i + 1;
    }
    assert urls[..i] == urls;
  }

  /** The requests for one more link of the same list. */
  lemma RequestsPrefix(urls: seq<string>, i: nat, base: Option<string>, callback: Callback)
    requires i < |urls|
    ensures Requests(urls[..i + 1], base, callback)
      == Requests(urls[..i], base, callback) + [Request(RequestUrl(base, urls[i]), callback)]
  {
    assert urls[..i + 1] == urls[..i] + [urls[i]];
    RequestsStep(urls[..i], urls[i], base, callback);
  }

  /** One more link adds its request at the end. */
  lemma RequestsStep(urls: seq<string>, link: string, base: Option<string>, callback: Callback)
    ensures Requests(urls + [link], base, callback)
      == Requests(urls, base, callback) + [Request(RequestUrl(base, link), callback)]
  {
    var a := Requests(urls + [link], base, callback);
    var b := Requests(urls, base, callback) + [Request(RequestUrl(base, link), callback)];
    forall k | 0 <= k < |a|
      ensures a[k] == b[k]
    {
      assert a[k] == Request(RequestUrl(base, (urls + [link])[k]), callback);
      if k < |urls| {
        assert (urls + [link])[k] == urls[k];
        assert b[k] == Requests(urls, base, callback)[k];
      } else {
        assert (urls + [link])[k] == link;
      }
    }
  }
}
