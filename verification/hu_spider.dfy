/**
 * The Hungarian parliament's scraper (parlament.hu): the date windows of
 * its vote queries, the party records it builds, and the URLs it derives
 * from links on the site and from its web API.
 */
module ParlamentHuSpider {
  import opened Text
  import opened Records
  import opened Urls
  import opened Utils
  import opened Items
  import Loaders

  const ApiUrl := "http://www.parlament.hu/cgi-bin/web-api/"
  const PersonEndpoint := "kepviselo"
  const VotesEndpoint := "szavazasok"

  /** `date(2014, 6, 1)` as a day number (`date.toordinal()`). */
  const VotesStartDate: int := 735385

  /** Window spans: `timedelta(days = 60)`. */
  const WindowDays: int := 60

  // ---------------------------------------------------------------------
  // get_votes_requests

  /** The days from `start` to `end`, both included, that one vote query asks for. */
  datatype Window = Window(start: int, end: int)

  predicate InWindow(w: Window, day: int) {
    w.start <= day <= w.end
  }

  /** Whether some window asks for the day. */
  predicate Covered(ws: seq<Window>, day: int) {
    exists i :: 0 <= i < |ws| && InWindow(ws[i], day)
  }

  /**
   * The windows the `while` loop emits when it reaches the given start and
   * end, and the `end` it leaves behind: a window is emitted while its start
   * is after VOTES_START_DATE, and the next one ends the day before.
   */
  function LoopWindows(start: int, end: int): (r: (seq<Window>, int))
    decreases start - VotesStartDate
  {
    if start > VotesStartDate then
      var (rest, last) := LoopWindows(start - 1 - WindowDays, start - 1);
      ([Window(start, end)] + rest, last)
    else ([], end)
  }

  /**
   * The windows of `get_votes_requests` as written: after the loop, one
   * last window from VOTES_START_DATE, only when it starts strictly before
   * the end left by the loop.
   */
  function VoteWindowsAsWritten(today: int): seq<Window> {
    var (ws, last) := LoopWindows(today - WindowDays, today);
    ws + (if VotesStartDate < last then [Window(VotesStartDate, last)] else [])
  }

  /** The windows with the last one also emitted when it is a single day. */
  function VoteWindows(today: int): seq<Window> {
    var (ws, last) := LoopWindows(today - WindowDays, today);
    ws + (if VotesStartDate <= last then [Window(VotesStartDate, last)] else [])
  }

  /** Each window ends the day before the previous one starts, and no window is empty. */
  predicate Contiguous(ws: seq<Window>) {
    (forall i :: 0 <= i < |ws| ==> ws[i].start <= ws[i].end)
    && (forall i :: 0 <= i < |ws| - 1 ==> ws[i + 1].end == ws[i].start - 1)
  }

  /** The loop's windows: 60-day spans after VOTES_START_DATE, each ending the day before the previous start. */
  lemma {:induction false} LoopWindowsShape(start: int, end: int)
    requires end == start + WindowDays
    ensures var (ws, last) := LoopWindows(start, end);
      (forall i :: 0 <= i < |ws| ==> ws[i].end - ws[i].start == WindowDays && ws[i].start > VotesStartDate)
      && Contiguous(ws)
      && (ws != [] ==> ws[0] == Window(start, end) && last == ws[|ws| - 1].start - 1)
      && (ws == [] ==> last == end)
      && last - WindowDays <= VotesStartDate
    decreases start - VotesStartDate
  {
    if start > VotesStartDate {
      LoopWindowsShape(start - 1 - WindowDays, start - 1);
      var (rest, last) := LoopWindows(start - 1 - WindowDays, start - 1);
      var ws := [Window(start, end)] + rest;
      assert LoopWindows(start, end) == (ws, last);
      ConsWindow(Window(start, end), rest);
      forall i | 0 <= i < |ws|
        ensures ws[i].end - ws[i].start == WindowDays && ws[i].start > VotesStartDate
      {
        if i > 0 {
          assert ws[i] == rest[i - 1];
        }
      }
    }
  }

  /** A window put in front of contiguous ones, ending the day before the first of them starts. */
  lemma ConsWindow(w: Window, rest: seq<Window>)
    requires w.start <= w.end && Contiguous(rest) && (rest != [] ==> rest[0].end == w.start - 1)
    ensures Contiguous([w] + rest)
    ensures forall i :: 1 <= i < |rest| + 1 ==> ([w] + rest)[i] == rest[i - 1]
  {
    var ws := [w] + rest;
    assert forall i :: 1 <= i < |ws| ==> ws[i] == rest[i - 1];
  }

  /** The first window ends today and starts 60 days earlier, when that is after VOTES_START_DATE. */
  lemma FirstWindow(today: int)
    requires today - WindowDays > VotesStartDate
    ensures VoteWindows(today) != [] && VoteWindows(today)[0] == Window(today - WindowDays, today)
  {
    LoopWindowsShape(today - WindowDays, today);
  }

  /**
   * The windows from today back to VOTES_START_DATE, with the last window
   * also sent when it is a single day: the loop's windows span 60 days and
   * start after VOTES_START_DATE, each window ends the day before the
   * previous one starts, and the last starts on VOTES_START_DATE.
   */
  lemma WindowsShape(today: int)
    requires today >= VotesStartDate
    ensures var ws := VoteWindows(today);
      var loop := LoopWindows(today - WindowDays, today).0;
      ws != [] && ws[0].end == today && ws[|ws| - 1].start == VotesStartDate
      && Contiguous(ws)
      && (forall i :: 0 <= i < |loop| ==>
            ws[i] == loop[i] && ws[i].end - ws[i].start == WindowDays && ws[i].start > VotesStartDate)
  {
    var (loop, last) := LoopWindows(today - WindowDays, today);
    LoopWindowsShape(today - WindowDays, today);
    var ws := VoteWindows(today);
    assert last >= VotesStartDate;
    assert ws == loop + [Window(VotesStartDate, last)];
  }

  /** Contiguous windows cover every day from the last one's start to the first one's end. */
  lemma {:induction false} ContiguousCovers(ws: seq<Window>, day: int)
    requires Contiguous(ws) && ws != []
    requires ws[|ws| - 1].start <= day <= ws[0].end
    ensures Covered(ws, day)
  {
    if !InWindow(ws[0], day) {
      var rest := ws[1..];
      assert Contiguous(rest);
      ContiguousCovers(rest, day);
      var i :| 0 <= i < |rest| && InWindow(rest[i], day);
      assert InWindow(ws[i + 1], day);
    }
  }

  /** Contiguous windows are ordered backwards in time and never overlap. */
  lemma {:induction false} ContiguousDisjoint(ws: seq<Window>, i: int, j: int)
    requires Contiguous(ws) && 0 <= i < j < |ws|
    ensures ws[j].end < ws[i].start
    decreases j - i
  {
    if j > i + 1 {
      ContiguousDisjoint(ws, i + 1, j);
    }
  }

  /**
   * Contiguous windows running from `lo` to `hi` ask for every day of that
   * range exactly once, and for no day outside it.
   */
  lemma ContiguousPartition(ws: seq<Window>, lo: int, hi: int)
    requires Contiguous(ws) && ws != [] && ws[0].end == hi && ws[|ws| - 1].start == lo
    ensures forall day :: lo <= day <= hi ==> Covered(ws, day)
    ensures forall i, j, day :: 0 <= i < j < |ws| && InWindow(ws[i], day) ==> !InWindow(ws[j], day)
    ensures forall i, day :: 0 <= i < |ws| && InWindow(ws[i], day) ==> lo <= day <= hi
  {
    forall day | lo <= day <= hi
      ensures Covered(ws, day)
    {
      ContiguousCovers(ws, day);
    }
    forall i, j, day | 0 <= i < j < |ws| && InWindow(ws[i], day)
      ensures !InWindow(ws[j], day)
    {
      ContiguousDisjoint(ws, i, j);
    }
    forall i, day | 0 <= i < |ws| && InWindow(ws[i], day)
      ensures lo <= day <= hi
    {
      if i > 0 {
        ContiguousDisjoint(ws, 0, i);
      }
      if i < |ws| - 1 {
        ContiguousDisjoint(ws, i, |ws| - 1);
      }
    }
  }

  /**
   * With the last window also sent when it is the single day
   * VOTES_START_DATE, every day from VOTES_START_DATE to today is asked for
   * by exactly one window, and no window asks for a day outside that range.
   */
  lemma WindowsPartition(today: int)
    requires today >= VotesStartDate
    ensures var ws := VoteWindows(today);
      (forall day :: VotesStartDate <= day <= today ==> Covered(ws, day))
      && (forall i, j, day :: 0 <= i < j < |ws| && InWindow(ws[i], day) ==> !InWindow(ws[j], day))
      && (forall i, day :: 0 <= i < |ws| && InWindow(ws[i], day) ==> VotesStartDate <= day <= today)
  {
    WindowsShape(today);
    ContiguousPartition(VoteWindows(today), VotesStartDate, today);
  }

  /**
   * The windows as `get_votes_requests` sends them: every day after
   * VOTES_START_DATE up to today is asked for by exactly one window, no
   * window asks for a day outside VOTES_START_DATE..today, and
   * VOTES_START_DATE itself is asked for exactly when the loop leaves an
   * end after it.
   */
  lemma WindowsAsWritten(today: int)
    requires today >= VotesStartDate
    ensures var ws := VoteWindowsAsWritten(today);
      var last := LoopWindows(today - WindowDays, today).1;
      Contiguous(ws)
      && (forall day :: VotesStartDate < day <= today ==> Covered(ws, day))
      && (Covered(ws, VotesStartDate) <==> VotesStartDate < last)
      && (forall i, j, day :: 0 <= i < j < |ws| && InWindow(ws[i], day) ==> !InWindow(ws[j], day))
      && (forall i, day :: 0 <= i < |ws| && InWindow(ws[i], day) ==> VotesStartDate <= day <= today)
  {
    var (loop, last) := LoopWindows(today - WindowDays, today);
    LoopWindowsShape(today - WindowDays, today);
    var ws := VoteWindowsAsWritten(today);
    if VotesStartDate < last {
      assert ws == VoteWindows(today);
      WindowsShape(today);
      ContiguousPartition(ws, VotesStartDate, today);
    } else {
      assert ws == loop;
      if loop != [] {
        ContiguousPartition(ws, VotesStartDate + 1, today);
      }
    }
  }

  /**
   * As written, the final test `start < end` skips a window that would be
   * the single day VOTES_START_DATE: sixty-one days after it, the loop's one
   * window starts the day after, and VOTES_START_DATE itself is never asked for.
   */
  lemma SkippedStartDay()
    ensures VoteWindowsAsWritten(VotesStartDate + 61) == [Window(VotesStartDate + 1, VotesStartDate + 61)]
    ensures !Covered(VoteWindowsAsWritten(VotesStartDate + 61), VotesStartDate)
  {
    var start := VotesStartDate + 1;
    var inner := LoopWindows(start - 1 - WindowDays, start - 1);
    assert inner == ([], VotesStartDate);
    assert LoopWindows(start, start + WindowDays) == ([Window(start, start + WindowDays)] + inner.0, inner.1);
  }

  /** The `while` loop of `get_votes_requests`, yielding the window of each request. */
  method GetVotesRequests(today: int) returns (windows: seq<Window>)
    ensures windows == VoteWindowsAsWritten(today)
  {
    var start := today - WindowDays;
    var end := today;
    windows := [];
    while start > VotesStartDate
      invariant end == start + WindowDays
      invariant windows + LoopWindows(start, end).0 == LoopWindows(today - WindowDays, today).0
      invariant LoopWindows(start, end).1 == LoopWindows(today - WindowDays, today).1
      decreases start - VotesStartDate
    {
      var next := LoopWindows(start - 1 - WindowDays, start - 1);
      assert LoopWindows(start, end) == ([Window(start, end)] + next.0, next.1);
      assert windows + ([Window(start, end)] + next.0) == (windows + [Window(start, end)]) + next.0;
      windows := windows + [Window(start, end)];
      end := start - 1;
      start := end - WindowDays;
    }
    start := VotesStartDate;
    if start < end {
      windows := windows + [Window(start, end)];
    }
  }

  // ---------------------------------------------------------------------
  // get_api_url and get_url

  /**
   * `dict.update` on a query kept as pairs in order: a pair whose name is
   * already there replaces that value in place; a new name is appended.
   */
  function UpdateOne(d: seq<(string, string)>, p: (string, string)): (r: seq<(string, string)>)
    ensures |r| >= |d| && forall i :: 0 <= i < |d| ==> r[i].0 == d[i].0
    ensures forall i :: 0 <= i < |r| ==> r[i] == p || r[i] in d
  {
    if d == [] then [p]
    else if d[0].0 == p.0 then [p] + d[1..]
    else [d[0]] + UpdateOne(d[1..], p)
  }

  function Update(d: seq<(string, string)>, params: seq<(string, string)>): (r: seq<(string, string)>)
    ensures |r| >= |d| && forall i :: 0 <= i < |d| ==> r[i].0 == d[i].0
    ensures forall i :: 0 <= i < |r| ==> r[i] in d || r[i] in params
    decreases |params|
  {
    if params == [] then d
    else
      var d1 := UpdateOne(d, params[0]);
      var r := Update(d1, params[1..]);
      assert forall i :: 0 <= i < |r| ==> r[i] in d || r[i] in params by {
        forall i | 0 <= i < |r|
          ensures r[i] in d || r[i] in params
        {
          if r[i] in d1 && r[i] !in d {
            assert r[i] == params[0];
          }
          if r[i] in params[1..] {
            assert r[i] in params;
          }
        }
      }
      r
  }

  /** The name the access token is sent under. */
  const TokenName := "access_token"

  lemma TokenNamePlain()
    ensures IsBytes(TokenName) && QuotePlus(TokenName) == TokenName
  {
    assert forall k :: 0 <= k < |TokenName| ==> IsUnreserved(TokenName[k]);
  }

  /** The query of `get_api_url`: the access token, updated with the parameters. */
  function ApiQuery(token: string, params: seq<(string, string)>): (q: seq<(string, string)>)
    ensures q != [] && q[0].0 == TokenName
    ensures forall i :: 0 <= i < |q| ==> q[i] == (TokenName, token) || q[i] in params
  {
    Update([(TokenName, token)], params)
  }

  lemma ApiQueryBytes(token: string, params: seq<(string, string)>)
    requires IsBytes(token) && BytePairs(params)
    ensures BytePairs(ApiQuery(token, params))
  {
    TokenNamePlain();
    BytePairsFrom(ApiQuery(token, params), (TokenName, token), params);
  }

  /** Pairs each of which is `first` or one of `params` are made of bytes when those are. */
  lemma BytePairsFrom(q: seq<(string, string)>, first: (string, string), params: seq<(string, string)>)
    requires IsBytes(first.0) && IsBytes(first.1) && BytePairs(params)
    requires forall i :: 0 <= i < |q| ==> q[i] == first || q[i] in params
    ensures BytePairs(q)
  {
    forall i | 0 <= i < |q|
      ensures IsBytes(q[i].0) && IsBytes(q[i].1)
    {
      if q[i] != first {
        var j :| 0 <= j < |params| && params[j] == q[i];
      }
    }
  }

  /** The URL of an API endpoint, before its query. */
  function EndpointUrl(endpoint: string): string {
    ApiUrl + endpoint + ".cgi"
  }

  lemma EndpointUrlPlain(endpoint: string)
    requires '?' !in endpoint
    ensures '?' !in EndpointUrl(endpoint)
  {
    assert forall k :: 0 <= k < |ApiUrl| ==> ApiUrl[k] != '?';
    assert forall k :: 0 <= k < |".cgi"| ==> ".cgi"[k] != '?';
  }

  /** `get_api_url(endpoint, params)`: the API URL of the endpoint, with the access token in the query. */
  function GetApiUrl(token: string, endpoint: string, params: seq<(string, string)>): (url: string)
    requires IsBytes(token) && BytePairs(params)
  {
    ApiQueryBytes(token, params);
    EndpointUrl(endpoint) + "?" + UrlEncode(ApiQuery(token, params))
  }

  /** A URL whose query's first name needs no quoting starts with that name and '='. */
  lemma EncodedStartsWithName(head: string, q: seq<(string, string)>)
    requires BytePairs(q) && q != [] && QuotePlus(q[0].0) == q[0].0
    ensures StartsWith(head + UrlEncode(q), head + (q[0].0 + "="))
  {
    UrlEncodeStarts(q);
    var enc := UrlEncode(q);
    var name := q[0].0 + "=";
    assert EncodePair(q[0]) == name + QuotePlus(q[0].1);
    assert StartsWith(enc, name) by {
      assert EncodePair(q[0])[..|name|] == name;
    }
    assert (head + enc)[..|head + name|] == head + enc[..|name|];
  }

  /** The query of every API URL starts with the access token. */
  lemma ApiUrlCarriesToken(token: string, endpoint: string, params: seq<(string, string)>)
    requires IsBytes(token) && BytePairs(params)
    ensures StartsWith(GetApiUrl(token, endpoint, params), EndpointUrl(endpoint) + "?" + (TokenName + "="))
  {
    TokenNamePlain();
    ApiQueryBytes(token, params);
    EncodedStartsWithName(EndpointUrl(endpoint) + "?", ApiQuery(token, params));
  }

  /**
   * The query of an API URL parses back to the access token and the
   * parameters, when no value is empty.
   */
  lemma ApiUrlQuery(token: string, endpoint: string, params: seq<(string, string)>)
    requires IsBytes(token) && BytePairs(params) && '?' !in endpoint
    requires token != [] && forall i :: 0 <= i < |params| ==> params[i].1 != []
    ensures ParseQsl(QueryOf(GetApiUrl(token, endpoint, params))) == ApiQuery(token, params)
  {
    var q := ApiQuery(token, params);
    ApiQueryBytes(token, params);
    EndpointUrlPlain(endpoint);
    forall i | 0 <= i < |q|
      ensures q[i].1 != []
    {
      if q[i] != (TokenName, token) {
        var j :| 0 <= j < |params| && params[j] == q[i];
      }
    }
    QueryOfEncoded(EndpointUrl(endpoint), q);
  }

  /** The literal part of the one API mapping's pattern, `/internet/cplsql/ogy_kpv\.kepv_adat\?p_azon=`. */
  const PersonLinkPrefix := "/internet/cplsql/ogy_kpv.kepv_adat?p_azon="

  /**
   * The group of the pattern `prefix(\w\d+)` when it matches at position
   * `i`: one word character and the longest run of digits after the prefix.
   */
  function MatchAt(s: string, i: nat, prefix: string): (r: Option<string>)
    requires i <= |s|
    ensures r.Some? ==> StartsWith(s[i..], prefix + r.value)
    ensures r.Some? ==> |r.value| >= 2 && AllDigits(r.value[1..])
    ensures r.Some? ==> forall k :: 0 <= k < |r.value| ==> IsWordChar(r.value[k])
    ensures r.Some? ==> var after := i + |prefix| + |r.value|; after == |s| || !IsDigit(s[after])
    ensures r.None? ==>
      (!StartsWith(s[i..], prefix) || |s| - i < |prefix| + 2
       || !IsWordChar(s[i + |prefix|]) || !IsDigit(s[i + |prefix| + 1]))
  {
    var rest := s[i..];
    if StartsWith(rest, prefix) then
      var t := rest[|prefix|..];
      if |t| >= 2 && IsWordChar(t[0]) && IsDigit(t[1]) then
        var n := DigitRun(t[1..]);
        var g := t[..1 + n];
        assert rest[..|prefix| + |g|] == prefix + g;
        assert g[1..] == t[1..][..n];
        assert 1 + n == |t| || t[1 + n] == t[1..][n];
        Some(g)
      else None
    else None
  }

  /** `re.search`: the group of the leftmost match at or after position `i`. */
  function Search(s: string, i: nat, prefix: string): (r: Option<string>)
    requires i <= |s|
    ensures r.Some? ==> exists j :: i <= j <= |s| && MatchAt(s, j, prefix) == r && forall k :: i <= k < j ==> MatchAt(s, k, prefix).None?
    ensures r.None? ==> forall k :: i <= k <= |s| ==> MatchAt(s, k, prefix).None?
    decreases |s| - i
  {
    var here := MatchAt(s, i, prefix);
    if here.Some? || i == |s| then here
    else
      var r := Search(s, i + 1, prefix);
      SearchMissExtends(s, i, prefix, r);
      r
  }

  /** A miss at `i` extends what the search from `i + 1` promises to the search from `i`. */
  lemma SearchMissExtends(s: string, i: nat, prefix: string, r: Option<string>)
    requires i < |s| && MatchAt(s, i, prefix).None?
    requires r.Some? ==> exists j :: i + 1 <= j <= |s| && MatchAt(s, j, prefix) == r && forall k :: i + 1 <= k < j ==> MatchAt(s, k, prefix).None?
    requires r.None? ==> forall k :: i + 1 <= k <= |s| ==> MatchAt(s, k, prefix).None?
    ensures r.Some? ==> exists j :: i <= j <= |s| && MatchAt(s, j, prefix) == r && forall k :: i <= k < j ==> MatchAt(s, k, prefix).None?
    ensures r.None? ==> forall k :: i <= k <= |s| ==> MatchAt(s, k, prefix).None?
  {
    if r.Some? {
      var j :| i + 1 <= j <= |s| && MatchAt(s, j, prefix) == r && forall k :: i + 1 <= k < j ==> MatchAt(s, k, prefix).None?;
      assert forall k :: i <= k < j ==> MatchAt(s, k, prefix).None?;
    }
  }

  /** The query parameter of a member's API URL. */
  const PersonParam := "p_azon"

  lemma PersonQueryBytes(id: string)
    requires forall k :: 0 <= k < |id| ==> IsWordChar(id[k])
    ensures BytePairs([(PersonParam, id)])
  {
    assert forall k :: 0 <= k < |PersonParam| ==> PersonParam[k] as int < 256;
  }

  /** The API URL of the member whose `p_azon` is `id`. */
  function PersonApiUrl(token: string, id: string): string
    requires IsBytes(token) && forall k :: 0 <= k < |id| ==> IsWordChar(id[k])
  {
    PersonQueryBytes(id);
    GetApiUrl(token, PersonEndpoint, [(PersonParam, id)])
  }

  /**
   * `get_url`: a link to a member's page becomes the API URL of the member
   * with the matched `p_azon`; any other URL is returned unchanged.
   */
  function GetUrl(token: string, url: string): (r: string)
    requires IsBytes(token)
    ensures Search(url, 0, PersonLinkPrefix).None? ==> r == url
  {
    match Search(url, 0, PersonLinkPrefix)
    case None => url
    case Some(id) => PersonApiUrl(token, id)
  }

  /**
   * A member link becomes an API URL whose query is the access token
   * followed by the matched `p_azon`.
   */
  lemma PersonLinkQuery(token: string, url: string)
    requires IsBytes(token) && token != []
    requires Search(url, 0, PersonLinkPrefix).Some?
    ensures ParseQsl(QueryOf(GetUrl(token, url)))
      == [(TokenName, token), (PersonParam, Search(url, 0, PersonLinkPrefix).value)]
  {
    var id := Search(url, 0, PersonLinkPrefix).value;
    assert GetUrl(token, url) == PersonApiUrl(token, id);
    PersonApiQuery(token, id);
  }

  lemma PersonApiQuery(token: string, id: string)
    requires IsBytes(token) && token != [] && id != [] && forall k :: 0 <= k < |id| ==> IsWordChar(id[k])
    ensures ParseQsl(QueryOf(PersonApiUrl(token, id))) == [(TokenName, token), (PersonParam, id)]
  {
    PersonQueryBytes(id);
    PersonNames();
    ApiUrlQuery(token, PersonEndpoint, [(PersonParam, id)]);
    ApiQueryOne(token, PersonParam, id);
  }

  /** One parameter with another name than the token's is appended after the token. */
  lemma ApiQueryOne(token: string, name: string, v: string)
    requires name != TokenName
    ensures ApiQuery(token, [(name, v)]) == [(TokenName, token), (name, v)]
  {
    var d := [(TokenName, token)];
    assert d[1..] == [];
    assert UpdateOne(d, (name, v)) == [(TokenName, token)] + UpdateOne([], (name, v));
    assert [(name, v)][1..] == [];
    assert Update(d, [(name, v)]) == Update(UpdateOne(d, (name, v)), []);
  }

  lemma PersonNames()
    ensures '?' !in PersonEndpoint && TokenName != PersonParam
  {
    assert forall k :: 0 <= k < |PersonEndpoint| ==> PersonEndpoint[k] != '?';
    assert TokenName[0] != PersonParam[0];
  }

  // ---------------------------------------------------------------------
  // get_action_url

  /** The position of the first query pair whose name ends with `suffix`. */
  function FirstEnding(pairs: seq<(string, string)>, suffix: string): (r: Option<nat>)
    ensures r.Some? ==> r.value < |pairs| && EndsWith(pairs[r.value].0, suffix)
    ensures r.Some? ==> forall j :: 0 <= j < r.value ==> !EndsWith(pairs[j].0, suffix)
    ensures r.None? ==> forall j :: 0 <= j < |pairs| ==> !EndsWith(pairs[j].0, suffix)
  {
    if pairs == [] then None
    else if EndsWith(pairs[0].0, suffix) then Some(0)
    else
      var r := FirstEnding(pairs[1..], suffix);
      if r.Some? then Some(r.value + 1) else None
  }

  /** `"%s" % parsed_url.hostname`: None prints as "None". */
  function HostText(url: string): string {
    match Hostname(url)
    case None => "None"
    case Some(h) => h
  }

  /**
   * `get_action_url`: `scheme://hostname` followed by the first value of the
   * first query name ending in "pairAction"; None when no name does.
   */
  function GetActionUrl(url: string): (r: Option<string>)
    ensures r.None? <==> forall j :: 0 <= j < |ParseQsl(QueryOf(url))| ==> !EndsWith(ParseQsl(QueryOf(url))[j].0, "pairAction")
    ensures r.Some? ==> StartsWith(r.value, Scheme(url) + "://" + HostText(url))
  {
    var pairs := ParseQsl(QueryOf(url));
    match FirstEnding(pairs, "pairAction")
    case None => None
    case Some(i) =>
      var path := FirstValue(pairs, pairs[i].0);
      var origin := Scheme(url) + "://" + HostText(url);
      assert StartsWith(origin + path.value, origin);
      Some(origin + path.value)
  }

  /**
   * For a link whose query was built by `urlencode` with non-empty values,
   * the action URL ends with the value of the first pair whose name ends in
   * "pairAction".
   */
  lemma ActionUrlOfQuery(base: string, pairs: seq<(string, string)>, i: nat)
    requires '?' !in base && BytePairs(pairs) && forall k :: 0 <= k < |pairs| ==> pairs[k].1 != []
    requires i < |pairs| && EndsWith(pairs[i].0, "pairAction")
    requires forall j :: 0 <= j < i ==> !EndsWith(pairs[j].0, "pairAction")
    ensures var url := base + "?" + UrlEncode(pairs);
      GetActionUrl(url) == Some(Scheme(url) + "://" + HostText(url) + pairs[i].1)
  {
    var url := base + "?" + UrlEncode(pairs);
    UrlEncodeNoFragment(pairs);
    QueryAfter(base, UrlEncode(pairs));
    ParseEncoded(pairs);
    assert FirstEnding(pairs, "pairAction") == Some(i) by {
      var r := FirstEnding(pairs, "pairAction");
      assert r.Some?;
    }
    assert FirstValue(pairs, pairs[i].0) == Some(pairs[i].1) by {
      var name := pairs[i].0;
      var v := FirstValue(pairs, name);
      var k :| 0 <= k < |pairs| && pairs[k] == (name, v.value) && forall j :: 0 <= j < k ==> pairs[j].0 != name;
      assert k == i;
    }
  }

  // ---------------------------------------------------------------------
  // get_party

  const PartyScheme := "parlament.hu/parties"

  /** The loader context of `ParlamentHuOrganizationLoader(..., scheme='parlament.hu/parties')`. */
  const PartyContext: Context := map["scheme" := Str(PartyScheme)]

  /** What `get_party` adds to the loader: the short name as name and identifier, the long name when given. */
  function PartyValues(shortName: string, longName: Value): seq<(string, seq<Value>)> {
    [("name", [Str(shortName)]), ("identifiers", [Str(shortName)])]
      + (if Truthy(longName) then [("other_names", [longName])] else [])
  }

  /**
   * `get_party(short_name, long_name)`: None for independents ("független"
   * after strip and lower-casing); otherwise the loaded party Organization.
   */
  function GetParty(shortName: string, longName: Value): (r: Result<Option<Record>>)
    ensures Lower(Strip(shortName)) == "független" ==> r == Ok(None)
  {
    if Lower(Strip(shortName)) == "független" then Ok(None)
    else
      var item :- LoadItem(Organization, map["classification" := Str("party")],
                           PartyValues(shortName, longName), PartyContext, Loaders.StripValue);
      Ok(Some(item))
  }

  /** The party's name is the short name, stripped by the loader's default input processor. */
  lemma PartyName(shortName: string)
    ensures LoadField(Organization, "name", [Str(shortName)], PartyContext, Loaders.StripValue)
      == Ok(TakeFirst([Str(Loaders.StripText(shortName))]))
  {
    LoadSingle(Organization, "name", Str(shortName), PartyContext, Loaders.StripValue);
    assert FieldInput(Organization, "name") == LoaderDefault;
    assert !ListOutput(Organization, "name");
  }

  /** The party's one identifier carries the party scheme. */
  lemma PartyIdentifiers(shortName: string)
    ensures LoadField(Organization, "identifiers", [Str(shortName)], PartyContext, Loaders.StripValue)
      == Ok(Some(Arr([Obj(map["identifier" := Str(shortName), "scheme" := Str(PartyScheme)])])))
  {
    LoadSingle(Organization, "identifiers", Str(shortName), PartyContext, Loaders.StripValue);
    assert FieldInput(Organization, "identifiers") == Identifier;
    assert ListOutput(Organization, "identifiers");
    assert ParseIdentifier(Str(shortName), PartyContext) == map["identifier" := Str(shortName), "scheme" := Str(PartyScheme)];
  }

  /** The long name becomes the party's one alternative name. */
  lemma PartyOtherNames(longName: Value)
    ensures LoadField(Organization, "other_names", [longName], PartyContext, Loaders.StripValue)
      == Ok(Some(Arr([Obj(map["name" := longName])])))
  {
    LoadSingle(Organization, "other_names", longName, PartyContext, Loaders.StripValue);
    assert FieldInput(Organization, "other_names") == OtherName;
    assert ListOutput(Organization, "other_names");
  }

  /** A record with a first field, an optional second, a third and an optional fourth, in that order. */
  function FourFields(a: string, b: string, c: string, d: string,
                      va: Value, vb: Option<Value>, vc: Value, vd: Option<Value>): Record {
    var m0: Record := map[a := va];
    var m1 := if vb.Some? then m0[b := vb.value] else m0;
    var m2 := m1[c := vc];
    if vd.Some? then m2[d := vd.value] else m2
  }

  /** Without the fourth field, the record is the first field, the optional second, then the third. */
  lemma FourFieldsNone(a: string, b: string, c: string, d: string, va: Value, vb: Option<Value>, vc: Value)
    ensures FourFields(a, b, c, d, va, vb, vc, None) == (if vb.Some? then map[a := va][b := vb.value] else map[a := va])[c := vc]
  {
  }

  /** The optional fourth field is set last. */
  lemma FourFieldsLast(a: string, b: string, c: string, d: string, va: Value, vb: Option<Value>, vc: Value, vd: Value)
    ensures FourFields(a, b, c, d, va, vb, vc, Some(vd)) == FourFields(a, b, c, d, va, vb, vc, None)[d := vd]
  {
  }

  lemma FourFieldsShape(a: string, b: string, c: string, d: string,
                        va: Value, vb: Option<Value>, vc: Value, vd: Option<Value>)
    requires a != b && a != c && a != d && b != c && b != d && c != d
    ensures var p := FourFields(a, b, c, d, va, vb, vc, vd);
      p.Keys <= {a, b, c, d} && a in p && p[a] == va && c in p && p[c] == vc
      && (b in p <==> vb.Some?) && (vb.Some? ==> p[b] == vb.value)
      && (d in p <==> vd.Some?) && (vd.Some? ==> p[d] == vd.value)
  {
  }

  /** The party record `get_party` loads, field by field. */
  function PartyItem(shortName: string, longName: Value): Record {
    var clean := Loaders.StripText(shortName);
    FourFields("classification", "name", "identifiers", "other_names",
      Str("party"),
      if clean != [] then Some(Str(clean)) else None,
      Arr([Obj(map["identifier" := Str(shortName), "scheme" := Str(PartyScheme)])]),
      if Truthy(longName) then Some(Arr([Obj(map["name" := longName])])) else None)
  }

  lemma PartyLoaded(shortName: string, longName: Value)
    requires Lower(Strip(shortName)) != "független"
    ensures GetParty(shortName, longName) == Ok(Some(PartyItem(shortName, longName)))
  {
    PartyNameAndIdentifiers(shortName, longName);
    PartyOtherNamesLoaded(shortName, longName);
  }

  /** The long name, when there is one, loads last, into the party item without other names. */
  lemma PartyOtherNamesLoaded(shortName: string, longName: Value)
    ensures LoadItem(Organization, PartyItem(shortName, Null), PartyValues(shortName, longName)[2..], PartyContext, Loaders.StripValue)
      == Ok(PartyItem(shortName, longName))
  {
    var ctx := PartyContext;
    var f := Loaders.StripValue;
    var item2 := PartyItem(shortName, Null);
    var rest := PartyValues(shortName, longName)[2..];
    if Truthy(longName) {
      var clean := Loaders.StripText(shortName);
      var name := if clean != [] then Some(Str(clean)) else None;
      var ids := Arr([Obj(map["identifier" := Str(shortName), "scheme" := Str(PartyScheme)])]);
      var others := Arr([Obj(map["name" := longName])]);
      PartyOtherNames(longName);
      assert rest == [("other_names", [longName])];
      LoadItemOne(Organization, item2, "other_names", [longName], ctx, f, Some(others));
      FourFieldsLast("classification", "name", "identifiers", "other_names", Str("party"), name, ids, others);
    } else {
      assert rest == [];
      assert LoadItem(Organization, item2, [], ctx, f) == Ok(item2);
    }
  }

  /** The name and the identifiers load into the party item without other names. */
  lemma PartyNameAndIdentifiers(shortName: string, longName: Value)
    ensures LoadItem(Organization, map["classification" := Str("party")], PartyValues(shortName, longName), PartyContext, Loaders.StripValue)
      == LoadItem(Organization, PartyItem(shortName, Null), PartyValues(shortName, longName)[2..], PartyContext, Loaders.StripValue)
  {
    var ctx := PartyContext;
    var f := Loaders.StripValue;
    var item0: Record := map["classification" := Str("party")];
    var name := TakeFirst([Str(Loaders.StripText(shortName))]);
    var ids := Arr([Obj(map["identifier" := Str(shortName), "scheme" := Str(PartyScheme)])]);
    PartyName(shortName);
    PartyIdentifiers(shortName);
    var item1 := if name.Some? then item0["name" := name.value] else item0;
    var values := PartyValues(shortName, longName);
    var rest := values[2..];
    assert values == [("name", [Str(shortName)])] + ([("identifiers", [Str(shortName)])] + rest);
    LoadItemStep(Organization, item0, "name", [Str(shortName)], [("identifiers", [Str(shortName)])] + rest, ctx, f, name);
    LoadItemStep(Organization, item1, "identifiers", [Str(shortName)], rest, ctx, f, Some(ids));
    FourFieldsNone("classification", "name", "identifiers", "other_names", Str("party"), name, ids);
  }

  /** The fields of the loaded party record. */
  lemma PartyItemShape(shortName: string, longName: Value)
    ensures var p := PartyItem(shortName, longName);
      p.Keys <= {"classification", "name", "identifiers", "other_names"}
      && "classification" in p && p["classification"] == Str("party")
      && ("name" in p <==> Loaders.StripText(shortName) != [])
      && ("name" in p ==> p["name"] == Str(Loaders.StripText(shortName)))
      && "identifiers" in p
      && p["identifiers"] == Arr([Obj(map["identifier" := Str(shortName), "scheme" := Str(PartyScheme)])])
      && ("other_names" in p <==> Truthy(longName))
      && ("other_names" in p ==> p["other_names"] == Arr([Obj(map["name" := longName])]))
  {
    assert "classification"[0] != "name"[0] && "classification"[0] != "identifiers"[0] && "classification"[0] != "other_names"[0];
    assert "name"[0] != "identifiers"[0] && "name"[0] != "other_names"[0] && "identifiers"[0] != "other_names"[0];
    var clean := Loaders.StripText(shortName);
    FourFieldsShape("classification", "name", "identifiers", "other_names",
      Str("party"),
      if clean != [] then Some(Str(clean)) else None,
      Arr([Obj(map["identifier" := Str(shortName), "scheme" := Str(PartyScheme)])]),
      if Truthy(longName) then Some(Arr([Obj(map["name" := longName])])) else None);
  }
  /**
   * Any other short name gives a party whose name is the cleaned short name
   * (unset when that is empty), whose one identifier is the short name under
   * the 'parlament.hu/parties' scheme, and which has other names exactly
   * when a long name is given.
   */
  lemma PartyRecord(shortName: string, longName: Value)
    requires Lower(Strip(shortName)) != "független"
    ensures GetParty(shortName, longName).Ok? && GetParty(shortName, longName).value.Some?
    ensures var p := GetParty(shortName, longName).value.value;
      p.Keys <= {"classification", "name", "identifiers", "other_names"}
      && "classification" in p && p["classification"] == Str("party")
      && ("name" in p <==> Loaders.StripText(shortName) != [])
      && ("name" in p ==> p["name"] == Str(Loaders.StripText(shortName)))
      && "identifiers" in p
      && p["identifiers"] == Arr([Obj(map["identifier" := Str(shortName), "scheme" := Str(PartyScheme)])])
      && ("other_names" in p <==> Truthy(longName))
      && ("other_names" in p ==> p["other_names"] == Arr([Obj(map["name" := longName])]))
  {
    PartyLoaded(shortName, longName);
    PartyItemShape(shortName, longName);
  }
}
