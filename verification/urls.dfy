/**
 * The URL helpers of Python 2's `urllib`/`urlparse` that the scrapers rely
 * on, over plain strings: `quote_plus`/`unquote` and `urlencode`,
 * `parse_qsl`/`parse_qs`, the parts of `urlparse` that are read, and
 * `urljoin` for the reference forms the scrapers produce.
 */
module Urls {
  import opened Text
  import opened Records

  /** The characters `quote_plus` never escapes. */
  predicate IsUnreserved(c: char) {
    ('a' <= c <= 'z') || ('A' <= c <= 'Z') || IsDigit(c) || c == '_' || c == '.' || c == '-'
  }

  /** A byte string: every character is below 256, as Python 2's `str`. */
  predicate IsBytes(s: string) {
    forall i :: 0 <= i < |s| ==> s[i] as int < 256
  }

  function HexDigit(n: nat): (c: char)
    requires n < 16
  {
    if n < 10 then ('0' as int + n) as char else ('A' as int + n - 10) as char
  }

  predicate IsHex(c: char) {
    IsDigit(c) || ('a' <= c <= 'f') || ('A' <= c <= 'F')
  }

  function HexValue(c: char): (n: nat)
    requires IsHex(c)
    ensures n < 16
  {
    if IsDigit(c) then c as int - '0' as int
    else if 'a' <= c <= 'f' then c as int - 'a' as int + 10
    else c as int - 'A' as int + 10
  }

  lemma HexRoundTrip(n: nat)
    requires n < 16
    ensures IsHex(HexDigit(n)) && HexValue(HexDigit(n)) == n
  {
  }

  /** `quote_plus` of one character. */
  function QuoteChar(c: char): (r: string)
    requires c as int < 256
    ensures '&' !in r && '=' !in r && ';' !in r && '#' !in r
  {
    if IsUnreserved(c) then [c]
    else if c == ' ' then "+"
    else "%" + [HexDigit(c as int / 16), HexDigit(c as int % 16)]
  }

  /** `urllib.quote_plus(s)`: unreserved characters kept, space as '+', the rest as %XX. */
  function QuotePlus(s: string): (r: string)
    requires IsBytes(s)
    ensures '&' !in r && '=' !in r && ';' !in r && '#' !in r
    ensures (forall i :: 0 <= i < |s| ==> IsUnreserved(s[i])) ==> r == s
  {
    if s == [] then [] else QuoteChar(s[0]) + QuotePlus(s[1..])
  }

  /**
   * `urllib.unquote(s.replace('+', ' '))`, as `parse_qsl` decodes names and
   * values: '+' is a space and '%' with two hex digits is that byte; any
   * other '%' stays as it is.
   */
  function UnquotePlus(t: string): string {
    if t == [] then []
    else if t[0] == '%' && |t| >= 3 && IsHex(t[1]) && IsHex(t[2]) then
      [(16 * HexValue(t[1]) + HexValue(t[2])) as char] + UnquotePlus(t[3..])
    else if t[0] == '+' then [' '] + UnquotePlus(t[1..])
    else [t[0]] + UnquotePlus(t[1..])
  }

  /** Decoding a quoted string gives it back. */
  lemma {:induction false} UnquoteQuote(s: string)
    requires IsBytes(s)
    ensures UnquotePlus(QuotePlus(s)) == s
  {
    if s != [] {
      var c := s[0];
      var rest := QuotePlus(s[1..]);
      UnquoteQuote(s[1..]);
      var q := QuoteChar(c) + rest;
      if IsUnreserved(c) {
        assert q[0] == c && q[1..] == rest;
      } else if c == ' ' {
        assert q[0] == '+' && q[1..] == rest;
      } else {
        HexRoundTrip(c as int / 16);
        HexRoundTrip(c as int % 16);
        assert q[0] == '%' && q[1] == HexDigit(c as int / 16) && q[2] == HexDigit(c as int % 16);
        assert q[3..] == rest;
      }
    }
  }

  /** `'%s=%s' % (quote_plus(k), quote_plus(v))` */
  function EncodePair(p: (string, string)): (r: string)
    requires IsBytes(p.0) && IsBytes(p.1)
    ensures '&' !in r && ';' !in r && '#' !in r
  {
    QuotePlus(p.0) + "=" + QuotePlus(p.1)
  }

  predicate BytePairs(pairs: seq<(string, string)>) {
    forall i :: 0 <= i < |pairs| ==> IsBytes(pairs[i].0) && IsBytes(pairs[i].1)
  }

  function EncodePairs(pairs: seq<(string, string)>): (r: seq<string>)
    requires BytePairs(pairs)
    ensures |r| == |pairs|
    ensures forall i :: 0 <= i < |r| ==> r[i] == EncodePair(pairs[i])
  {
    if pairs == [] then [] else [EncodePair(pairs[0])] + EncodePairs(pairs[1..])
  }

  /** `urllib.urlencode(pairs)`, the pairs in the order given. */
  function UrlEncode(pairs: seq<(string, string)>): string
    requires BytePairs(pairs)
  {
    Join(EncodePairs(pairs), "&")
  }

  /** One `name=value` piece of a query, decoded, or nothing when it is skipped. */
  function DecodePiece(piece: string): (r: seq<(string, string)>)
    ensures |r| <= 1
  {
    if piece == [] || '=' !in piece then []
    else
      var i := FirstIndex(piece, '=');
      if i + 1 == |piece| then []
      else [(UnquotePlus(piece[..i]), UnquotePlus(piece[i + 1..]))]
  }

  function DecodePieces(pieces: seq<string>): seq<(string, string)> {
    if pieces == [] then [] else DecodePiece(pieces[0]) + DecodePieces(pieces[1..])
  }

  /**
   * `urlparse.parse_qsl(qs)`: the query split on '&' and ';', each piece cut
   * at its first '='; pieces without '=' or with an empty value are skipped
   * (blank values are not kept).
   */
  function ParseQsl(qs: string): seq<(string, string)> {
    DecodePieces(SplitChar(ReplaceChar(qs, ';', '&'), '&'))
  }

  /** `parse_qs(qs)[name][0]`: the first value given for `name`, if any. */
  function QueryValue(qs: string, name: string): (r: Option<string>)
    ensures r.Some? <==> exists i :: 0 <= i < |ParseQsl(qs)| && ParseQsl(qs)[i].0 == name
  {
    FirstValue(ParseQsl(qs), name)
  }

  function FirstValue(pairs: seq<(string, string)>, name: string): (r: Option<string>)
    ensures r.Some? <==> exists i :: 0 <= i < |pairs| && pairs[i].0 == name
    ensures r.Some? ==> exists i :: (0 <= i < |pairs| && pairs[i] == (name, r.value)
                                    && forall j :: 0 <= j < i ==> pairs[j].0 != name)
  {
    if pairs == [] then None
    else if pairs[0].0 == name then Some(pairs[0].1)
    else
      var r := FirstValue(pairs[1..], name);
      if r.Some? then
        var i :| (0 <= i < |pairs[1..]| && pairs[1..][i] == (name, r.value)
                  && forall j :: 0 <= j < i ==> pairs[1..][j].0 != name);
        assert pairs[i + 1] == (name, r.value);
        r
      else
        assert forall i :: 1 <= i < |pairs| ==> pairs[i] == pairs[1..][i - 1];
        r
  }

  /** The position of the first occurrence of `c` in `s`. */
  function FirstIndex(s: string, c: char): (i: nat)
    requires c in s
    ensures i < |s| && s[i] == c && c !in s[..i]
  {
    if s[0] == c then 0
    else
      assert c in s[1..] by {
        var k :| 0 <= k < |s| && s[k] == c;
        assert s[1..][k - 1] == c;
      }
      var j := FirstIndex(s[1..], c);
      assert s[..j + 1] == [s[0]] + s[1..][..j];
      j + 1
  }

  /** Splitting a join of pieces free of the separator gives the pieces back. */
  lemma {:induction false} SplitJoin(parts: seq<string>, c: char)
    requires |parts| >= 1
    requires forall i :: 0 <= i < |parts| ==> c !in parts[i]
    ensures SplitChar(Join(parts, [c]), c) == parts
  {
    if |parts| == 1 {
      assert Join(parts, [c]) == parts[0] && c !in parts[0];
    } else {
      var init := parts[..|parts| - 1];
      var last := parts[|parts| - 1];
      var head := Join(init, [c]);
      var s := Join(parts, [c]);
      SplitLast(parts);
      assert s == head + [c] + last;
      assert forall i :: 0 <= i < |init| ==> init[i] == parts[i];
      SplitJoin(init, c);
      LastSeparator(head, last, c);
      assert SplitChar(s, c) == SplitChar(s[..LastIndex(s, c)], c) + [s[LastIndex(s, c) + 1..]];
      assert SplitChar(s, c) == init + [last];
      assert init + [last] == parts;
    }
  }

  /** The last separator of `head + c + last` is the one before `last`, when `last` has none. */
  lemma LastSeparator(head: string, last: string, c: char)
    requires c !in last
    ensures var s := head + [c] + last;
      c in s && LastIndex(s, c) == |head| && s[..|head|] == head && s[|head| + 1..] == last
  {
    var s := head + [c] + last;
    assert s[|head|] == c;
    assert s[..|head|] == head;
    assert s[|head| + 1..] == last;
  }

  /** One encoded pair decodes back to itself when its value is not empty. */
  lemma DecodeEncodedPair(p: (string, string))
    requires IsBytes(p.0) && IsBytes(p.1) && p.1 != []
    ensures DecodePiece(EncodePair(p)) == [p]
  {
    var piece := EncodePair(p);
    var k := QuotePlus(p.0);
    var v := QuotePlus(p.1);
    assert piece == k + "=" + v;
    assert piece[|k|] == '=';
    var i := FirstIndex(piece, '=');
    assert i == |k|;
    assert piece[..i] == k && piece[i + 1..] == v;
    UnquoteQuote(p.0);
    UnquoteQuote(p.1);
  }

  lemma {:induction false} DecodeEncodedPairs(pairs: seq<(string, string)>)
    requires BytePairs(pairs)
    requires forall i :: 0 <= i < |pairs| ==> pairs[i].1 != []
    ensures DecodePieces(EncodePairs(pairs)) == pairs
  {
    if pairs != [] {
      DecodeEncodedPair(pairs[0]);
      assert EncodePairs(pairs)[1..] == EncodePairs(pairs[1..]);
      DecodeEncodedPairs(pairs[1..]);
    }
  }

  /**
   * A query built by `urlencode` parses back to its pairs, in order, when no
   * value is empty (`parse_qsl` drops blank values).
   */
  lemma ParseEncoded(pairs: seq<(string, string)>)
    requires BytePairs(pairs)
    requires forall i :: 0 <= i < |pairs| ==> pairs[i].1 != []
    ensures ParseQsl(UrlEncode(pairs)) == pairs
  {
    var parts := EncodePairs(pairs);
    var qs := UrlEncode(pairs);
    if pairs == [] {
      assert qs == [];
      assert SplitChar(qs, '&') == [[]];
    } else {
      assert ';' !in qs by {
        JoinFree(parts, '&', ';');
      }
      assert ReplaceChar(qs, ';', '&') == qs;
      SplitJoin(parts, '&');
      DecodeEncodedPairs(pairs);
    }
  }

  /** A join of pieces and separators that all avoid `d` avoids `d`. */
  lemma {:induction false} JoinFree(parts: seq<string>, c: char, d: char)
    requires c != d
    requires forall i :: 0 <= i < |parts| ==> d !in parts[i]
    ensures d !in Join(parts, [c])
  {
    if |parts| > 1 {
      JoinFree(parts[..|parts| - 1], c, d);
    }
  }

  /** Characters that may continue a URL scheme after its first letter. */
  predicate IsSchemeChar(c: char) {
    ('a' <= c <= 'z') || ('A' <= c <= 'Z') || IsDigit(c) || c == '+' || c == '-' || c == '.'
  }

  function SchemeLength(s: string): (n: nat)
    ensures n <= |s|
    ensures forall i :: 0 <= i < n ==> IsSchemeChar(s[i])
    ensures n < |s| ==> !IsSchemeChar(s[n])
  {
    if s != [] && IsSchemeChar(s[0]) then 1 + SchemeLength(s[1..]) else 0
  }

  /** The URL starts with `scheme://`. */
  predicate HasAuthority(s: string) {
    var n := SchemeLength(s);
    n > 0 && ('a' <= s[0] <= 'z' || 'A' <= s[0] <= 'Z') && StartsWith(s[n..], "://")
  }

  /** The scheme of a URL with an authority. */
  function SchemeOf(s: string): string
    requires HasAuthority(s)
  {
    s[..SchemeLength(s)]
  }

  predicate EndsAuthority(c: char) { c == '/' || c == '?' || c == '#' }

  /** The length of the longest prefix free of the authority terminators. */
  function AuthorityLength(s: string): (n: nat)
    ensures n <= |s|
    ensures forall i :: 0 <= i < n ==> !EndsAuthority(s[i])
    ensures n < |s| ==> EndsAuthority(s[n])
  {
    if s != [] && !EndsAuthority(s[0]) then 1 + AuthorityLength(s[1..]) else 0
  }

  /** `scheme://netloc`: the URL up to its path (empty without an authority). */
  function Origin(s: string): (o: string)
    ensures StartsWith(s, o)
  {
    if HasAuthority(s) then
      var n := SchemeLength(s) + 3;
      s[..n + AuthorityLength(s[n..])]
    else []
  }

  /** The URL without its query and fragment. */
  function BeforeQuery(s: string): (r: string)
    ensures StartsWith(s, r)
    ensures '?' !in r && '#' !in r
  {
    if s == [] || s[0] == '?' || s[0] == '#' then []
    else [s[0]] + BeforeQuery(s[1..])
  }

  /** The URL without its fragment. */
  function BeforeFragment(s: string): (r: string)
    ensures StartsWith(s, r)
    ensures '#' !in r
  {
    if s == [] || s[0] == '#' then [] else [s[0]] + BeforeFragment(s[1..])
  }

  /** `urlparse(s).path`, for a URL without `;params`. */
  function PathOf(s: string): (p: string)
    ensures '?' !in p && '#' !in p
  {
    var o := Origin(s);
    BeforeQuery(s[|o|..])
  }

  /**
   * The base with its last path segment removed: what a relative reference
   * is appended to. A base with an authority and an empty path gets "/".
   */
  function Directory(base: string): (d: string)
    ensures StartsWith(d, Origin(base))
  {
    var o := Origin(base);
    var path := PathOf(base);
    if '/' in path then o + path[..LastIndex(path, '/') + 1]
    else if HasAuthority(base) then o + "/"
    else o
  }

  /**
   * The scheme `urlsplit` finds, lower-cased, or "" when it finds none: the
   * text before the first ':', when that is non-empty and all scheme
   * characters, and what follows the ':' is not a port number (for "http"
   * the port test is skipped).
   */
  function SplitScheme(s: string): (r: string)
    ensures r != [] ==> SchemeLength(s) < |s| && s[SchemeLength(s)] == ':' && r == Lower(s[..SchemeLength(s)])
  {
    var n := SchemeLength(s);
    if 0 < n < |s| && s[n] == ':' && (s[..n] == "http" || !AllDigits(s[n + 1..])) then Lower(s[..n])
    else []
  }

  /** `uses_relative`: the schemes under which `urljoin` resolves a reference against its base. */
  const UsesRelative: seq<string> :=
    ["ftp", "http", "gopher", "nntp", "imap", "wais", "file", "https", "shttp", "mms",
     "prospero", "rtsp", "rtspu", "", "sftp", "svn", "svn+ssh"]

  /**
   * A reference `urljoin` returns unchanged: it names a scheme other than
   * the base's, or the base's scheme is not one references are resolved under.
   */
  predicate Foreign(base: string, ref: string) {
    var rs := SplitScheme(ref);
    var bs := SplitScheme(base);
    (rs != [] && rs != bs) || bs !in UsesRelative
  }

  /**
   * `urlparse.urljoin(base, ref)` for references without dot segments: a
   * reference under another scheme, or under a base scheme that is not
   * resolved against, is returned as it is; an absolute reference replaces
   * the base, "//host" keeps only its scheme,
   * "/path" keeps its origin, "?query" and "#fragment" keep what precedes
   * them, and any other reference replaces the base's last path segment.
   */
  function UrlJoin(base: string, ref: string): (r: string)
    ensures EndsWith(r, ref)
    ensures base == [] || HasAuthority(ref) ==> r == ref
    ensures base != [] && ref == [] ==> r == base
    ensures ref != [] && Foreign(base, ref) ==> r == ref
  {
    if base == [] then ref
    else if ref == [] then base
    else if Foreign(base, ref) || HasAuthority(ref) then ref
    else if StartsWith(ref, "//") then (if HasAuthority(base) then SchemeOf(base) + ":" + ref else ref)
    else if ref[0] == '/' then Origin(base) + ref
    else if ref[0] == '?' then BeforeQuery(base) + ref
    else if ref[0] == '#' then BeforeFragment(base) + ref
    else Directory(base) + ref
  }

  /** A run of `m` scheme characters followed by another character has length `m`. */
  lemma {:induction false} SchemeRun(s: string, m: nat)
    requires m < |s| && (forall k :: 0 <= k < m ==> IsSchemeChar(s[k])) && !IsSchemeChar(s[m])
    ensures SchemeLength(s) == m
  {
    if m > 0 {
      SchemeRun(s[1..], m - 1);
    }
  }

  /** A reference without ':' names no scheme and has no authority. */
  lemma NoColonNoScheme(ref: string)
    requires ':' !in ref
    ensures SplitScheme(ref) == [] && !HasAuthority(ref)
  {
  }

  /**
   * A reference without ':' is joined under a base whose scheme is resolved
   * against: a plain relative path replaces the base's last path segment.
   */
  lemma NoSchemeJoined(base: string, ref: string)
    requires base != [] && ref != [] && ':' !in ref && SplitScheme(base) in UsesRelative
    ensures !Foreign(base, ref)
    ensures ref[0] != '/' && ref[0] != '?' && ref[0] != '#' ==> UrlJoin(base, ref) == Directory(base) + ref
  {
    NoColonNoScheme(ref);
    if ref[0] != '/' && ref[0] != '?' && ref[0] != '#' {
      assert !StartsWith(ref, "//");
    }
  }

  /** "<scheme>:<rest>" names that scheme, lower-cased, when the rest does not start with a digit. */
  lemma SchemeOfParts(scheme: string, rest: string)
    requires scheme != [] && (forall k :: 0 <= k < |scheme| ==> IsSchemeChar(scheme[k]))
    requires rest != [] && !IsDigit(rest[0])
    ensures SplitScheme(scheme + ":" + rest) == Lower(scheme)
  {
    var s := scheme + ":" + rest;
    SchemeRun(s, |scheme|);
    assert s[..|scheme|] == scheme;
    assert s[|scheme| + 1..] == rest;
  }

  /**
   * A reference under another scheme is returned unchanged: joining
   * "mailto:x@y.me" to an http base such as "http://www.skupstina.me/"
   * gives "mailto:x@y.me".
   */
  lemma OtherSchemeKept(rest: string)
    requires rest != [] && !IsDigit(rest[0])
    ensures UrlJoin("http:" + rest, "mailto:x@y.me") == "mailto:x@y.me"
  {
    MailtoScheme();
    HttpScheme(rest);
    assert Foreign("http:" + rest, "mailto:x@y.me");
  }

  lemma HttpScheme(rest: string)
    requires rest != [] && !IsDigit(rest[0])
    ensures |SplitScheme("http:" + rest)| == 4
  {
    SchemeOfParts("http", rest);
    assert "http" + ":" + rest == "http:" + rest;
  }

  lemma MailtoScheme()
    ensures |SplitScheme("mailto:x@y.me")| == 6
  {
    SchemeOfParts("mailto", "x@y.me");
    assert "mailto" + ":" + "x@y.me" == "mailto:x@y.me";
  }

  /** The query of a URL: what follows its first '?', up to a fragment. */
  function QueryOf(s: string): (q: string)
    ensures '#' !in q
  {
    if '?' !in s then []
    else
      var i := FirstIndex(s, '?');
      BeforeFragment(s[i + 1..])
  }

  /** A query that follows the first '?' of a URL and has no fragment is the URL's query. */
  lemma QueryAfter(prefix: string, q: string)
    requires '?' !in prefix && '#' !in q
    ensures QueryOf(prefix + "?" + q) == q
  {
    var s := prefix + "?" + q;
    assert s[|prefix|] == '?';
    var i := FirstIndex(s, '?');
    assert i == |prefix| by {
      assert s[..|prefix|] == prefix;
    }
    assert s[i + 1..] == q;
    BeforeFragmentKeeps(q);
  }

  lemma {:induction false} BeforeFragmentKeeps(s: string)
    requires '#' !in s
    ensures BeforeFragment(s) == s
  {
    if s != [] {
      BeforeFragmentKeeps(s[1..]);
    }
  }

  /** An encoded query has no fragment mark. */
  lemma UrlEncodeNoFragment(pairs: seq<(string, string)>)
    requires BytePairs(pairs)
    ensures '#' !in UrlEncode(pairs)
  {
    JoinFree(EncodePairs(pairs), '&', '#');
  }

  /** An encoded query starts with its first pair. */
  lemma UrlEncodeStarts(pairs: seq<(string, string)>)
    requires BytePairs(pairs) && pairs != []
    ensures StartsWith(UrlEncode(pairs), EncodePair(pairs[0]))
  {
    JoinStarts(EncodePairs(pairs), "&");
  }

  lemma {:induction false} JoinStarts(parts: seq<string>, sep: string)
    requires parts != []
    ensures StartsWith(Join(parts, sep), parts[0])
  {
    if |parts| > 1 {
      var init := parts[..|parts| - 1];
      JoinStarts(init, sep);
      assert Join(parts, sep) == Join(init, sep) + (sep + parts[|parts| - 1]);
    }
  }

  /** `urlparse(s).netloc`: what follows `scheme://` up to the path, query or fragment. */
  function Netloc(s: string): string {
    if HasAuthority(s) then
      var n := SchemeLength(s) + 3;
      s[n..n + AuthorityLength(s[n..])]
    else []
  }

  /** `urlparse(s).scheme`, lower-cased, for URLs of the form `scheme://...`. */
  function Scheme(s: string): (r: string)
    ensures !HasAuthority(s) ==> r == []
  {
    if HasAuthority(s) then Lower(SchemeOf(s)) else []
  }

  /**
   * `urlparse(s).hostname`: the netloc after any user information, without
   * the port (or inside brackets), lower-cased; None when it is empty.
   */
  function Hostname(s: string): (h: Option<string>)
    ensures Netloc(s) == [] ==> h.None?
    ensures h.Some? ==> forall i :: 0 <= i < |h.value| ==> !HasLower(h.value[i])
  {
    var parts := SplitChar(Netloc(s), '@');
    var host := parts[|parts| - 1];
    if '[' in host && ']' in host then
      var inside := SplitChar(host, ']')[0];
      Some(Lower(if inside == [] then [] else inside[1..]))
    else if ':' in host then Some(Lower(SplitChar(host, ':')[0]))
    else if host == [] then None
    else Some(Lower(host))
  }

  /** A URL made of a plain head and an encoded query with non-empty values parses back to the pairs. */
  lemma QueryOfEncoded(head: string, q: seq<(string, string)>)
    requires '?' !in head && BytePairs(q) && forall i :: 0 <= i < |q| ==> q[i].1 != []
    ensures ParseQsl(QueryOf(head + "?" + UrlEncode(q))) == q
  {
    UrlEncodeNoFragment(q);
    QueryAfter(head, UrlEncode(q));
    ParseEncoded(q);
  }
}
