/**
 The list URL that SyncRepository builds (pkg/registry/client.go) and the parser
 parseGitHubAPIURL (pkg/registry/github/github_client.go) for URLs of the same form.
 Strings are byte strings.  Of net/url only https URLs without user information are modelled.
 */
module RegistryUrl {
  import opened Strings
  import opened Wrappers

  predicate IsBytes(s: string) {
    forall i :: 0 <= i < |s| ==> s[i] as int < 256
  }

  datatype Repository = Repository(owner: string, name: string, path: string, branch: string)

  // ---- Strings ----------------------------------------------------------------------------

  /** What stands before and after the first occurrence of a character. */
  function Cut(s: string, c: char): (string, Option<string>) {
    if s == "" then ("", None)
    else if s[0] == c then ("", Some(s[1..]))
    else
      var (before, after) := Cut(s[1..], c);
      ([s[0]] + before, after)
  }

  function Split(s: string, c: char): (parts: seq<string>)
    ensures |parts| >= 1
    decreases |s|
  {
    if s == "" then [""]
    else if s[0] == c then [""] + Split(s[1..], c)
    else
      var parts := Split(s[1..], c);
      [[s[0]] + parts[0]] + parts[1..]
  }

  function Join(parts: seq<string>, c: char): string {
    if parts == [] then ""
    else if |parts| == 1 then parts[0]
    else parts[0] + [c] + Join(parts[1..], c)
  }

  // ---- Percent encoding -------------------------------------------------------------------

  predicate Unreserved(c: char) {
    'a' <= c <= 'z' || 'A' <= c <= 'Z' || '0' <= c <= '9' || c in "-_.~"
  }

  function HexDigit(n: int): char
    requires 0 <= n < 16
  {
    if n < 10 then '0' + n as char else 'A' + (n - 10) as char
  }

  function HexValue(c: char): Option<int> {
    if '0' <= c <= '9' then Some((c - '0') as int)
    else if 'A' <= c <= 'F' then Some((c - 'A') as int + 10)
    else if 'a' <= c <= 'f' then Some((c - 'a') as int + 10)
    else None
  }

  function EscapeByte(c: char): string {
    if Unreserved(c) then [c]
    else if c == ' ' then "+"
    else if c as int < 256 then ['%', HexDigit(c as int / 16), HexDigit(c as int % 16)]
    else ""
  }

  function QueryEscape(s: string): string {
    if s == "" then "" else EscapeByte(s[0]) + QueryEscape(s[1..])
  }

  function Unescape(s: string, inQuery: bool): Option<string> {
    if s == "" then Some("")
    else if s[0] == '%' then
      if |s| < 3 || HexValue(s[1]).None? || HexValue(s[2]).None? then None
      else
        var rest := Unescape(s[3..], inQuery);
        if rest.None? then None
        else Some([(HexValue(s[1]).value * 16 + HexValue(s[2]).value) as char] + rest.value)
    else
      var rest := Unescape(s[1..], inQuery);
      if rest.None? then None
      else Some([if inQuery && s[0] == '+' then ' ' else s[0]] + rest.value)
  }

  // ---- Building ---------------------------------------------------------------------------

  function BasePath(path: string): string {
    var trimmed := Trim(path, "/");
    if trimmed == "" then "servers" else trimmed
  }

  function BranchOrMain(branch: string): string {
    if branch == "" then "main" else branch
  }

  const ORIGIN := "https://api.github.com"

  function Segments(owner: string, name: string): seq<string> {
    ["repos", owner, name, "contents"]
  }

  function ContentsPath(owner: string, name: string, base: string): string {
    "/" + Join(Segments(owner, name) + [base], '/')
  }

  function ListUrl(owner: string, name: string, path: string, branch: string): string {
    ORIGIN + (ContentsPath(owner, name, BasePath(path)) + ("?ref=" + QueryEscape(BranchOrMain(branch))))
  }

  // ---- Parsing ----------------------------------------------------------------------------

  datatype Url = Url(host: string, path: string, query: string)

  predicate IsControl(c: char) {
    c < ' ' || c as int == 127
  }

  predicate HasControl(s: string) {
    exists i :: 0 <= i < |s| && IsControl(s[i])
  }

  function ParseAfterScheme(rest: string): Option<Url> {
    var (hierarchy, query) := Cut(rest, '?');
    var (host, tail) := Cut(hierarchy, '/');
    var path := Unescape(if tail.Some? then "/" + tail.value else "", false);
    if path.None? then None else Some(Url(host, path.value, query.GetOr("")))
  }

  function UrlParse(raw: string): Option<Url> {
    var (u, fragment) := Cut(raw, '#');
    if HasControl(u) || |u| < 8 || u[..8] != "https://" then None
    else if fragment.Some? && Unescape(fragment.value, false).None? then None
    else ParseAfterScheme(u[8..])
  }

  /** Query().Get("ref"): pieces that do not parse are skipped. */
  function RefOf(pieces: seq<string>): string {
    if pieces == [] then ""
    else
      var (k, v) := Cut(pieces[0], '=');
      var key, value := Unescape(k, true), Unescape(v.GetOr(""), true);
      if ';' !in pieces[0] && key == Some("ref") && value.Some? then value.value else RefOf(pieces[1..])
  }

  function ParseGitHubAPIURL(raw: string): Option<Repository> {
    var u := UrlParse(raw);
    if u.None? || u.value.host != "api.github.com" then None
    else
      var parts := Split(Trim(u.value.path, "/"), '/');
      if |parts| < 4 || parts[0] != "repos" || parts[3] != "contents" then None
      else
        var branch := RefOf(Split(u.value.query, '&'));
        Some(Repository(parts[1], parts[2], Join(parts[4..], '/'), BranchOrMain(branch)))
  }

  // ---- Lemmas on strings ------------------------------------------------------------------

  lemma {:induction false} CutSkips(a: string, s: string, c: char)
    requires c !in a
    ensures Cut(a + s, c) == (a + Cut(s, c).0, Cut(s, c).1)
  {
    if a == "" {
      assert a + s == s && a + Cut(s, c).0 == Cut(s, c).0;
    } else {
      assert (a + s)[1..] == a[1..] + s;
      CutSkips(a[1..], s, c);
      assert [a[0]] + (a[1..] + Cut(s, c).0) == a + Cut(s, c).0;
    }
  }

  lemma {:induction false} CutFinds(s: string, t: string, c: char)
    requires c in s
    ensures Cut(s + t, c).0 == Cut(s, c).0 && |Cut(s, c).0| < |s|
  {
    assert (s + t)[1..] == s[1..] + t;
    if s[0] == c {
    } else {
      CutFinds(s[1..], t, c);
    }
  }

  lemma CutMisses(s: string, c: char)
    requires c !in s
    ensures Cut(s, c) == (s, None)
  {
    CutSkips(s, "", c);
    assert s + "" == s;
  }

  lemma CutAt(a: string, c: char, b: string)
    requires c !in a
    ensures Cut(a + ([c] + b), c) == (a, Some(b))
  {
    CutSkips(a, [c] + b, c);
    assert ([c] + b)[1..] == b && a + "" == a;
  }

  lemma {:induction false} CutKeepsPrefix(s: string, c: char)
    ensures Cut(s, c).0 <= s && c !in Cut(s, c).0
  {
    if s == "" || s[0] == c {
    } else {
      CutKeepsPrefix(s[1..], c);
      assert s == [s[0]] + s[1..];
    }
  }

  lemma {:induction false} UnescapeShrinks(s: string, inQuery: bool)
    requires Unescape(s, inQuery).Some?
    ensures |Unescape(s, inQuery).value| <= |s|
    ensures |Unescape(s, inQuery).value| == |s| ==> '%' !in s
  {
    if s == "" {
    } else {
      if s[0] == '%' {
        UnescapeShrinks(s[3..], inQuery);
      } else {
        UnescapeShrinks(s[1..], inQuery);
        assert s == [s[0]] + s[1..];
      }
    }
  }

  lemma {:induction false} UnescapePlain(s: string, inQuery: bool)
    requires '%' !in s && (inQuery ==> '+' !in s)
    ensures Unescape(s, inQuery) == Some(s)
  {
    if s == "" {
    } else {
      UnescapePlain(s[1..], inQuery);
      assert s == [s[0]] + s[1..];
    }
  }

  lemma HexRoundTrip(n: int)
    requires 0 <= n < 16
    ensures HexValue(HexDigit(n)) == Some(n)
  {
  }

  lemma UnescapeOne(c: char, rest: string)
    requires c != '%'
    ensures var more := Unescape(rest, true);
            Unescape([c] + rest, true) ==
            if more.None? then None else Some([if c == '+' then ' ' else c] + more.value)
  {
    assert ([c] + rest)[1..] == rest;
  }

  lemma UnescapeHex(n: int, rest: string)
    requires 0 <= n < 256
    ensures var more := Unescape(rest, true);
            Unescape(['%', HexDigit(n / 16), HexDigit(n % 16)] + rest, true) ==
            if more.None? then None else Some([n as char] + more.value)
  {
    var high, low := HexDigit(n / 16), HexDigit(n % 16);
    HexRoundTrip(n / 16);
    HexRoundTrip(n % 16);
    assert (['%', high, low] + rest)[3..] == rest;
    assert (n / 16) * 16 + n % 16 == n;
  }

  /** Unescaping undoes escaping, byte by byte. */
  lemma {:induction false} UnescapeUndoesEscape(s: string)
    requires IsBytes(s)
    ensures Unescape(QueryEscape(s), true) == Some(s)
  {
    if s == "" {
    } else {
      var c, rest := s[0], QueryEscape(s[1..]);
      UnescapeUndoesEscape(s[1..]);
      if Unreserved(c) {
        UnescapeOne(c, rest);
      } else if c == ' ' {
        UnescapeOne('+', rest);
      } else {
        UnescapeHex(c as int, rest);
      }
      assert s == [c] + s[1..];
    }
  }

  predicate EscapedChar(c: char) {
    Unreserved(c) || c == '+' || c == '%'
  }

  lemma {:induction false} EscapedText(s: string)
    requires IsBytes(s)
    ensures forall i :: 0 <= i < |QueryEscape(s)| ==> EscapedChar(QueryEscape(s)[i])
  {
    if s == "" {
    } else {
      EscapedText(s[1..]);
      var e := EscapeByte(s[0]);
      assert forall i :: 0 <= i < |e| ==> EscapedChar(e[i]);
    }
  }

  lemma {:induction false} SplitSkips(a: string, c: char, s: string)
    requires c !in a
    ensures Split(a + ([c] + s), c) == [a] + Split(s, c)
  {
    var t := a + ([c] + s);
    if a == "" {
      assert t == [c] + s && t[1..] == s;
    } else {
      assert t[1..] == a[1..] + ([c] + s);
      SplitSkips(a[1..], c, s);
      assert [a[0]] + a[1..] == a;
    }
  }

  lemma {:induction false} PiecesHaveNoSeparator(s: string, c: char)
    ensures forall i :: 0 <= i < |Split(s, c)| ==> c !in Split(s, c)[i]
  {
    if s == "" {
    } else {
      PiecesHaveNoSeparator(s[1..], c);
    }
  }

  lemma JoinFirst(first: string, rest: seq<string>, c: char)
    ensures Join([first] + rest, c) == first + if rest == [] then "" else [c] + Join(rest, c)
  {
    assert ([first] + rest)[1..] == rest;
    if rest == [] {
      assert first + "" == first;
    } else {
      assert first + [c] + Join(rest, c) == first + ([c] + Join(rest, c));
    }
  }

  lemma PrependedIsAssociative(x: char, a: string, b: string)
    ensures ([x] + a) + b == [x] + (a + b)
  {
  }

  lemma JoinLonger(x: char, first: string, rest: seq<string>, c: char)
    ensures Join([[x] + first] + rest, c) == [x] + Join([first] + rest, c)
  {
    JoinFirst(first, rest, c);
    JoinFirst([x] + first, rest, c);
    PrependedIsAssociative(x, first, if rest == [] then "" else [c] + Join(rest, c));
  }

  lemma {:induction false} JoinUndoesSplit(s: string, c: char)
    ensures Join(Split(s, c), c) == s
  {
    if s == "" {
    } else {
      var parts := Split(s[1..], c);
      JoinUndoesSplit(s[1..], c);
      JoinFirst("", parts, c);
      JoinLonger(s[0], parts[0], parts[1..], c);
      assert [parts[0]] + parts[1..] == parts && [s[0]] + s[1..] == s;
    }
  }

  lemma {:induction false} SplitWhole(s: string, c: char)
    requires c !in s
    ensures Split(s, c) == [s]
  {
    if s == "" {
    } else {
      SplitWhole(s[1..], c);
      assert s == [s[0]] + s[1..];
    }
  }

  lemma BasePathShape(path: string)
    ensures var b := BasePath(path);
            b != "" && b[0] != '/' && b[|b| - 1] != '/'
  {
    TrimLeftShape(path, "/");
    TrimRightShape(TrimLeft(path, "/"), "/");
  }

  predicate Slashes(s: string) {
    forall i :: 0 <= i < |s| ==> s[i] == '/'
  }

  /** `part` stands in `path` with slashes alone before and after it, and is as short as it can be. */
  predicate WithoutOuterSlashes(part: string, path: string) {
    && part != "" && part[0] != '/' && part[|part| - 1] != '/'
    && exists i, j :: 0 <= i <= j <= |path| && path[i..j] == part && Slashes(path[..i]) && Slashes(path[j..])
  }

  /** What is listed: the configured path without its outer slashes, or "servers" if that leaves nothing. */
  lemma BasePathIsConfigured(path: string)
    ensures if Slashes(path) then BasePath(path) == "servers" else WithoutOuterSlashes(BasePath(path), path)
  {
    var i, j := TrimShape(path, "/");
    assert Slashes(path[..i]) && Slashes(path[j..]);
    if i < j {
      assert path[i..j] == BasePath(path);
    }
  }

  lemma TidyPathIsListed(path: string)
    requires path != "" && path[0] != '/' && path[|path| - 1] != '/'
    ensures BasePath(path) == path
  {
    NothingToTrim(path, "/");
  }

  lemma FivePartsJoined(a: string, b: string, c: string, d: string, e: string)
    ensures Join([a, b, c, d, e], '/') == a + "/" + b + "/" + c + "/" + d + "/" + e
  {
    assert [a, b, c, d, e][1..] == [b, c, d, e];
    assert [b, c, d, e][1..] == [c, d, e];
    assert [c, d, e][1..] == [d, e];
    assert [d, e][1..] == [e];
    assert Join([d, e], '/') == d + "/" + e;
    assert Join([c, d, e], '/') == c + "/" + (d + "/" + e);
    assert Join([b, c, d, e], '/') == b + "/" + (c + "/" + (d + "/" + e));
    assert Join([a, b, c, d, e], '/') == a + "/" + (b + "/" + (c + "/" + (d + "/" + e)));
  }

  /** The list URL, part by part. */
  lemma ListUrlText(owner: string, name: string, path: string, branch: string)
    ensures ListUrl(owner, name, path, branch) ==
            "https://api.github.com" +
            (("/" + ("repos" + "/" + owner + "/" + name + "/" + "contents" + "/" + BasePath(path))) +
             ("?ref=" + QueryEscape(if branch == "" then "main" else branch)))
  {
    FivePartsJoined("repos", owner, name, "contents", BasePath(path));
    assert Segments(owner, name) + [BasePath(path)] == ["repos", owner, name, "contents", BasePath(path)];
  }

  const HEX := "0123456789ABCDEF"
  const LOWER_HEX := "0123456789abcdef"

  lemma HexDigits()
    ensures forall n :: 0 <= n < 16 ==> HexDigit(n) == HEX[n] && HexValue(HEX[n]) == HexValue(LOWER_HEX[n]) == Some(n)
  {
  }

  /** Percent encoding as in sections 2.1 and 2.3 of RFC 3986: letters, digits and four marks stand for
      themselves, and escapes are written with capital digits and read with either.  A space becomes a plus. */
  lemma EscapesOfBytes(c: char, n: nat)
    requires c as int < 256 && n < 16
    ensures EscapeByte(c) == [c] <==>
              || 'a' <= c <= 'z' || 'A' <= c <= 'Z' || '0' <= c <= '9'
              || c == '-' || c == '_' || c == '.' || c == '~'
    ensures EscapeByte(' ') == "+"
    ensures EscapeByte(c) == [c] || c == ' ' || EscapeByte(c) == ['%', HEX[c as int / 16], HEX[c as int % 16]]
    ensures HexValue(HEX[n]) == HexValue(LOWER_HEX[n]) == Some(n)
  {
    HexDigits();
  }

  /** What a query piece gives for "ref", if it is one. */
  function RefIn(piece: string): Option<string> {
    var (k, v) := Cut(piece, '=');
    if ';' in piece || Unescape(k, true) != Some("ref") then None
    else Unescape(if v.Some? then v.value else "", true)
  }

  /** The first piece that gives one counts, and without any it is empty. */
  lemma {:induction false} FirstRefCounts(pieces: seq<string>)
    ensures (forall i :: 0 <= i < |pieces| ==> RefIn(pieces[i]).None?) ==> RefOf(pieces) == ""
    ensures forall i :: 0 <= i < |pieces| && RefIn(pieces[i]).Some? &&
                        (forall j :: 0 <= j < i ==> RefIn(pieces[j]).None?) ==>
              Some(RefOf(pieces)) == RefIn(pieces[i])
  {
    if pieces == [] {
    } else {
      FirstRefCounts(pieces[1..]);
      forall i | 0 < i < |pieces| && RefIn(pieces[i]).Some? && (forall j :: 0 <= j < i ==> RefIn(pieces[j]).None?)
        ensures Some(RefOf(pieces)) == RefIn(pieces[i])
      {
        assert pieces[1..][i - 1] == pieces[i];
        assert forall j :: 0 <= j < i - 1 ==> pieces[1..][j] == pieces[j + 1];
      }
    }
  }

  // ---- The round trip ---------------------------------------------------------------------

  /** Free of the characters that end a path or start an escape, and of control characters. */
  predicate Plain(s: string) {
    '#' !in s && '?' !in s && '%' !in s && !HasControl(s)
  }

  /** Owner and name are single plain path segments, and the path is plain. */
  predicate Clean(owner: string, name: string, base: string) {
    Plain(owner) && Plain(name) && Plain(base) && '/' !in owner && '/' !in name
  }

  /** The raw path of a list URL as UrlParse cuts it out. */
  function RawPath(p: string): string {
    Cut(Cut(p, '#').0, '?').0
  }

  lemma PlainPart(s: string, lo: nat, hi: nat)
    requires lo <= hi <= |s|
    ensures Plain(s) ==> Plain(s[lo..hi])
  {
  }

  lemma PlainJoin(a: string, b: string)
    requires Plain(a) && Plain(b)
    ensures Plain(a + b)
  {
  }

  lemma PlainJoinIff(a: string, b: string)
    ensures Plain(a + b) <==> Plain(a) && Plain(b)
  {
    assert (a + b)[0..|a|] == a && (a + b)[|a|..|a + b|] == b;
    PlainPart(a + b, 0, |a|);
    PlainPart(a + b, |a|, |a + b|);
    if Plain(a) && Plain(b) {
      PlainJoin(a, b);
    }
  }

  lemma {:induction false} PlainJoined(xs: seq<string>)
    ensures Plain(Join(xs, '/')) <==> forall i :: 0 <= i < |xs| ==> Plain(xs[i])
  {
    if |xs| <= 1 {
    } else {
      PlainJoined(xs[1..]);
      PlainJoinIff("/", Join(xs[1..], '/'));
      PlainJoinIff(xs[0], "/" + Join(xs[1..], '/'));
      assert Join(xs, '/') == xs[0] + ("/" + Join(xs[1..], '/'));
      assert forall i :: 0 < i < |xs| ==> xs[i] == xs[1..][i - 1];
    }
  }

  lemma ContentsPathPlain(owner: string, name: string, base: string)
    ensures Plain(ContentsPath(owner, name, base)) <==> Plain(owner) && Plain(name) && Plain(base)
  {
    var xs := Segments(owner, name) + [base];
    PlainJoined(xs);
    PlainJoinIff("/", Join(xs, '/'));
    assert xs[1] == owner && xs[2] == name && xs[4] == base;
  }

  lemma EscapedIsTame(s: string)
    requires IsBytes(s)
    ensures '#' !in QueryEscape(s) && '&' !in QueryEscape(s) && ';' !in QueryEscape(s) && '=' !in QueryEscape(s)
    ensures !HasControl("?ref=" + QueryEscape(s))
  {
    EscapedText(s);
    var q := "?ref=" + QueryEscape(s);
    forall i | 0 <= i < |q|
      ensures !IsControl(q[i])
    {
      if i >= 5 {
        assert q[i] == QueryEscape(s)[i - 5];
      }
    }
  }

  lemma RefIsRead(branch: string)
    requires IsBytes(branch)
    ensures RefOf(Split("ref=" + QueryEscape(branch), '&')) == branch
  {
    var e := QueryEscape(branch);
    var q := "ref=" + e;
    EscapedIsTame(branch);
    SplitWhole(q, '&');
    assert q == "ref" + (['='] + e);
    CutAt("ref", '=', e);
    UnescapeUndoesEscape(branch);
    UnescapePlain("ref", true);
  }

  lemma FragmentIsCut(p: string, q: string)
    requires '#' !in q
    ensures Cut(p + q, '#') == (if '#' in p then (Cut(p, '#').0, Cut(p + q, '#').1) else (p + q, None))
  {
    if '#' in p {
      CutFinds(p, q, '#');
    } else {
      CutMisses(p + q, '#');
    }
  }

  lemma QueryIsCut(p: string, ref: string)
    ensures var head := if '#' in p then Cut(p, '#').0 else p + ("?" + ref);
            Cut(head, '?').0 == RawPath(p) && (Plain(p) ==> Cut(head, '?') == (p, Some(ref)))
  {
    if '#' !in p {
      CutMisses(p, '#');
      if '?' in p {
        CutFinds(p, "?" + ref, '?');
      } else {
        CutMisses(p, '?');
        CutAt(p, '?', ref);
      }
    }
  }

  lemma HostIsCut(h: string)
    requires h != "" && h[0] == '/'
    ensures Cut("api.github.com" + h, '/') == ("api.github.com", Some(h[1..])) && "/" + h[1..] == h
  {
    CutAt("api.github.com", '/', h[1..]);
    assert h == ['/'] + h[1..];
  }

  lemma AfterScheme(head: string)
    requires Cut(head, '?').0 != "" && Cut(head, '?').0[0] == '/'
    ensures var path := Unescape(Cut(head, '?').0, false);
            ParseAfterScheme("api.github.com" + head) ==
            if path.None? then None else Some(Url("api.github.com", path.value, Cut(head, '?').1.GetOr("")))
  {
    CutSkips("api.github.com", head, '?');
    HostIsCut(Cut(head, '?').0);
  }

  lemma SchemeIsCut(head: string)
    ensures var u := ORIGIN + head;
            |u| >= 8 && u[..8] == "https://" && u[8..] == "api.github.com" + head
  {
  }

  lemma OriginHasNoFragmentOrControl()
    ensures '#' !in ORIGIN && !HasControl(ORIGIN)
  {
  }

  lemma RawPathStartsWithSlash(p: string)
    requires p != "" && p[0] == '/'
    ensures RawPath(p) != "" && RawPath(p)[0] == '/'
    ensures |RawPath(p)| <= |p|
    ensures |RawPath(p)| == |p| ==> '#' !in p && '?' !in p
  {
    var f := Cut(p, '#').0;
    CutKeepsPrefix(p, '#');
    CutKeepsPrefix(f, '?');
    assert f[0] == '/';
  }

  lemma ControlOf(origin: string, head: string, p: string, q: string)
    requires !HasControl(origin) && !HasControl(q)
    ensures head == p + q ==> (HasControl(origin + head) <==> HasControl(p))
  {
    if head == p + q {
      if i :| 0 <= i < |p| && IsControl(p[i]) {
        assert (origin + head)[|origin| + i] == p[i];
      }
      if i :| 0 <= i < |origin + head| && IsControl((origin + head)[i]) {
        if i < |origin| {
          assert IsControl(origin[i]);
        } else if i < |origin| + |p| {
          assert IsControl(p[i - |origin|]);
        } else {
          assert IsControl(q[i - |origin| - |p|]);
        }
      }
    }
  }

  lemma ReferencedUrlIsCut(origin: string, p: string, ref: string)
    requires origin == ORIGIN && '#' !in origin && !HasControl(origin)
    requires p != "" && p[0] == '/' && '#' !in ref && !HasControl("?" + ref)
    ensures var u := UrlParse(origin + (p + ("?" + ref)));
            && (u.Some? ==>
                  u.value.host == "api.github.com" && Unescape(RawPath(p), false) == Some(u.value.path) &&
                  (HasControl(p) ==> '#' in p))
            && (Plain(p) ==> u == Some(Url("api.github.com", p, ref)))
  {
    var q := "?" + ref;
    FragmentIsCut(p, q);
    CutSkips(origin, p + q, '#');
    var head := Cut(p + q, '#').0;
    SchemeIsCut(head);
    QueryIsCut(p, ref);
    RawPathStartsWithSlash(p);
    AfterScheme(head);
    ControlOf(origin, head, p, q);
    if Plain(p) {
      UnescapePlain(p, false);
    }
  }

  /** Cutting the fragment and the query off a URL of this form. */
  lemma UrlIsCut(p: string, branch: string)
    requires IsBytes(branch) && p != "" && p[0] == '/'
    ensures var u := UrlParse(ORIGIN + (p + ("?ref=" + QueryEscape(branch))));
            && (u.Some? ==>
                  u.value.host == "api.github.com" && Unescape(RawPath(p), false) == Some(u.value.path) &&
                  (HasControl(p) ==> '#' in p))
            && (Plain(p) ==> u == Some(Url("api.github.com", p, "ref=" + QueryEscape(branch))))
  {
    var ref := "ref=" + QueryEscape(branch);
    assert "?" + ref == "?ref=" + QueryEscape(branch);
    EscapedIsTame(branch);
    OriginHasNoFragmentOrControl();
    ReferencedUrlIsCut(ORIGIN, p, ref);
  }

  lemma TrimSlash(t: string)
    requires t != "" && t[0] != '/' && t[|t| - 1] != '/'
    ensures Trim("/" + t, "/") == t
  {
    assert ("/" + t)[1..] == t;
    TrimLeftShape(t, "/");
    TrimRightShape(t, "/");
  }

  lemma JoinStep(xs: seq<string>, base: string, c: char)
    requires xs != []
    ensures Join(xs + [base], c) == xs[0] + ([c] + Join(xs[1..] + [base], c))
  {
    assert (xs + [base])[1..] == xs[1..] + [base];
  }

  lemma {:induction false} JoinEnds(xs: seq<string>, base: string, c: char)
    requires base != ""
    ensures Join(xs + [base], c) != "" && Join(xs + [base], c)[|Join(xs + [base], c)| - 1] == base[|base| - 1]
    ensures xs != [] && xs[0] != "" ==> Join(xs + [base], c)[0] == xs[0][0]
  {
    if xs == [] {
    } else {
      JoinEnds(xs[1..], base, c);
      JoinStep(xs, base, c);
    }
  }

  lemma PrependSplit(xs: seq<string>, ys: seq<string>)
    requires xs != []
    ensures [xs[0]] + (xs[1..] + ys) == xs + ys
  {
  }

  lemma {:induction false} SplitUndoesJoin(xs: seq<string>, base: string, c: char)
    requires forall i :: 0 <= i < |xs| ==> c !in xs[i]
    ensures Split(Join(xs + [base], c), c) == xs + Split(base, c)
  {
    if xs == [] {
      assert xs + [base] == [base];
    } else {
      SplitUndoesJoin(xs[1..], base, c);
      JoinStep(xs, base, c);
      SplitSkips(xs[0], c, Join(xs[1..] + [base], c));
      PrependSplit(xs, Split(base, c));
    }
  }

  lemma {:induction false} JoinNests(xs: seq<string>, ys: seq<string>, c: char)
    requires ys != []
    ensures Join(xs + ys, c) == Join(xs + [Join(ys, c)], c)
  {
    if xs == [] {
      assert xs + ys == ys;
    } else {
      assert (xs + ys)[1..] == xs[1..] + ys;
      assert (xs + [Join(ys, c)])[1..] == xs[1..] + [Join(ys, c)];
      JoinNests(xs[1..], ys, c);
    }
  }

  lemma SplitTrimmedJoin(xs: seq<string>, base: string)
    requires forall i :: 0 <= i < |xs| ==> '/' !in xs[i]
    requires xs != [] && xs[0] != "" && base != "" && base[|base| - 1] != '/'
    ensures Split(Trim("/" + Join(xs + [base], '/'), "/"), '/') == xs + Split(base, '/')
  {
    SplitUndoesJoin(xs, base, '/');
    JoinEnds(xs, base, '/');
    assert xs[0][0] in xs[0];
    TrimSlash(Join(xs + [base], '/'));
  }

  lemma SegmentsHaveNoSlash(owner: string, name: string)
    requires '/' !in owner && '/' !in name
    ensures forall i :: 0 <= i < |Segments(owner, name)| ==> '/' !in Segments(owner, name)[i]
    ensures Segments(owner, name) != [] && Segments(owner, name)[0] != ""
  {
  }

  lemma PathSplits(owner: string, name: string, base: string)
    requires '/' !in owner && '/' !in name && base != "" && base[|base| - 1] != '/'
    ensures Split(Trim(ContentsPath(owner, name, base), "/"), '/') == Segments(owner, name) + Split(base, '/')
  {
    SegmentsHaveNoSlash(owner, name);
    SplitTrimmedJoin(Segments(owner, name), base);
  }

  /** Sufficient: clean input comes back as it went in. */
  lemma CleanRoundTrip(owner: string, name: string, path: string, branch: string)
    requires IsBytes(branch) && Clean(owner, name, BasePath(path))
    ensures ParseGitHubAPIURL(ListUrl(owner, name, path, branch)) ==
            Some(Repository(owner, name, BasePath(path), BranchOrMain(branch)))
  {
    var base := BasePath(path);
    BasePathShape(path);
    ContentsPathPlain(owner, name, base);
    UrlIsCut(ContentsPath(owner, name, base), BranchOrMain(branch));
    PathSplits(owner, name, base);
    JoinUndoesSplit(base, '/');
    RefIsRead(BranchOrMain(branch));
    var parts := Segments(owner, name) + Split(base, '/');
    assert parts[4..] == Split(base, '/');
  }

  /** A path that splits into the segments of this repository is, but for its slashes, the path
      that was built for it. */
  lemma SplitIsContentsPath(trimmed: string, owner: string, name: string, base: string)
    requires base != ""
    requires var parts := Split(trimmed, '/');
             |parts| >= 4 && parts[0] == "repos" && parts[1] == owner && parts[2] == name && parts[3] == "contents"
             && Join(parts[4..], '/') == base
    ensures "/" + trimmed == ContentsPath(owner, name, base)
    ensures '/' !in owner && '/' !in name
  {
    var parts := Split(trimmed, '/');
    PiecesHaveNoSeparator(trimmed, '/');
    JoinUndoesSplit(trimmed, '/');
    assert parts == Segments(owner, name) + parts[4..];
    JoinNests(Segments(owner, name), parts[4..], '/');
  }

  lemma SplitIsSegments(trimmed: string, r: Repository)
    requires var parts := Split(trimmed, '/');
             |parts| >= 4 && parts[0] == "repos" && parts[1] == r.owner && parts[2] == r.name && parts[3] == "contents"
             && Join(parts[4..], '/') == r.path
    ensures '/' !in r.owner && '/' !in r.name
    ensures trimmed == ContentsPath(r.owner, r.name, r.path)[1..] ||
            (r.path == "" && trimmed == Join(Segments(r.owner, r.name), '/'))
  {
    var parts := Split(trimmed, '/');
    PiecesHaveNoSeparator(trimmed, '/');
    JoinUndoesSplit(trimmed, '/');
    assert parts == Segments(r.owner, r.name) + parts[4..];
    if parts[4..] == [] {
      assert parts == Segments(r.owner, r.name);
    } else {
      JoinNests(Segments(r.owner, r.name), parts[4..], '/');
    }
  }

  lemma SegmentsSplit(owner: string, name: string, path: string)
    requires '/' !in owner && '/' !in name
    ensures var parts := Split(ContentsPath(owner, name, path)[1..], '/');
            |parts| > 4 && parts[..4] == Segments(owner, name) && Join(parts[4..], '/') == path
    ensures Split(Join(Segments(owner, name), '/'), '/') == Segments(owner, name)
  {
    var xs := Segments(owner, name);
    SegmentsHaveNoSlash(owner, name);
    SplitUndoesJoin(xs, path, '/');
    JoinUndoesSplit(path, '/');
    assert (xs + Split(path, '/'))[4..] == Split(path, '/');
    SplitUndoesJoin(xs[..3], "contents", '/');
    SplitWhole("contents", '/');
    assert xs[..3] + ["contents"] == xs;
  }

  /** The path, without outer slashes, names owner and repository and leads to `r.path` in its contents. */
  predicate Names(trimmed: string, r: Repository) {
    && '/' !in r.owner && '/' !in r.name
    && (trimmed == ContentsPath(r.owner, r.name, r.path)[1..] ||
        (r.path == "" && trimmed == Join(Segments(r.owner, r.name), '/')))
  }

  lemma NamesIffSplit(trimmed: string, r: Repository)
    ensures var parts := Split(trimmed, '/');
            Names(trimmed, r) <==>
              |parts| >= 4 && parts[0] == "repos" && parts[3] == "contents" &&
              parts[1] == r.owner && parts[2] == r.name && Join(parts[4..], '/') == r.path
  {
    var parts := Split(trimmed, '/');
    if |parts| >= 4 && parts[0] == "repos" && parts[3] == "contents" && parts[1] == r.owner && parts[2] == r.name
       && Join(parts[4..], '/') == r.path {
      SplitIsSegments(trimmed, r);
    }
    if Names(trimmed, r) {
      SegmentsSplit(r.owner, r.name, r.path);
    }
  }

  /** What the parser accepts, and what it makes of it: the path names an owner, a repository and its contents,
      and whatever follows is the path in the repository. */
  lemma ParsedIff(raw: string, r: Repository)
    ensures ParseGitHubAPIURL(raw) == Some(r) <==>
              var u := UrlParse(raw);
              && u.Some? && u.value.host == "api.github.com" && Names(Trim(u.value.path, "/"), r)
              && (var ref := RefOf(Split(u.value.query, '&'));
                  r.branch == if ref == "" then "main" else ref)
  {
    if UrlParse(raw).Some? {
      NamesIffSplit(Trim(UrlParse(raw).value.path, "/"), r);
    }
  }

  /** If cutting, unescaping and trimming did not shorten the path, they did not change it. */
  lemma UnshortenedIsPlain(p: string, parsed: string)
    requires p != "" && p[0] == '/' && (HasControl(p) ==> '#' in p)
    requires Unescape(RawPath(p), false) == Some(parsed)
    requires |Trim(parsed, "/")| == |p| - 1
    ensures Plain(p)
  {
    var raw := RawPath(p);
    RawPathStartsWithSlash(p);
    UnescapeShrinks(raw, false);
    assert parsed[0] == '/';
    TrimLeftShape(parsed, "/");
    TrimRightShape(TrimLeft(parsed, "/"), "/");
    assert |Trim(parsed, "/")| < |parsed| <= |raw| <= |p|;
    CutMisses(p, '#');
    CutMisses(p, '?');
  }

  /** Necessary: a result equal to the input leaves no room for a cut, an escape or a slash. */
  lemma RoundTripIsClean(owner: string, name: string, path: string, branch: string)
    requires IsBytes(branch)
    requires ParseGitHubAPIURL(ListUrl(owner, name, path, branch)) ==
             Some(Repository(owner, name, BasePath(path), BranchOrMain(branch)))
    ensures Clean(owner, name, BasePath(path))
  {
    var base := BasePath(path);
    var p := ContentsPath(owner, name, base);
    BasePathShape(path);
    UrlIsCut(p, BranchOrMain(branch));
    var parsed := UrlParse(ListUrl(owner, name, path, branch)).value.path;
    SplitIsContentsPath(Trim(parsed, "/"), owner, name, base);
    UnshortenedIsPlain(p, parsed);
    ContentsPathPlain(owner, name, base);
  }

  /** Parsing the list URL returns the repository it was built for exactly if owner, name and path
      are clean; a missing branch and an empty path come back as their defaults. */
  lemma RoundTripIff(owner: string, name: string, path: string, branch: string)
    requires IsBytes(branch)
    ensures ParseGitHubAPIURL(ListUrl(owner, name, path, branch)) ==
            Some(Repository(owner, name, BasePath(path), BranchOrMain(branch))) <==>
              Clean(owner, name, BasePath(path))
  {
    if Clean(owner, name, BasePath(path)) {
      CleanRoundTrip(owner, name, path, branch);
    } else if ParseGitHubAPIURL(ListUrl(owner, name, path, branch)) ==
              Some(Repository(owner, name, BasePath(path), BranchOrMain(branch))) {
      RoundTripIsClean(owner, name, path, branch);
    }
  }

  /** So a path without outer slashes and a named branch come back as they were configured, exactly if
      owner, name and path are clean. */
  lemma TidyRoundTripIff(owner: string, name: string, path: string, branch: string)
    requires IsBytes(branch) && branch != ""
    requires path != "" && path[0] != '/' && path[|path| - 1] != '/'
    ensures ParseGitHubAPIURL(ListUrl(owner, name, path, branch)) == Some(Repository(owner, name, path, branch)) <==>
              Clean(owner, name, path)
  {
    TidyPathIsListed(path);
    RoundTripIff(owner, name, path, branch);
  }

  lemma DefaultPathIsPlain()
    ensures Plain("servers")
  {
  }

  /** Without a configured path and branch, "servers" and "main" come back. */
  lemma DefaultsComeBack(owner: string, name: string, path: string)
    requires Slashes(path)
    ensures ParseGitHubAPIURL(ListUrl(owner, name, path, "")) == Some(Repository(owner, name, "servers", "main")) <==>
              Plain(owner) && Plain(name) && '/' !in owner && '/' !in name
  {
    BasePathIsConfigured(path);
    DefaultPathIsPlain();
    RoundTripIff(owner, name, path, "");
  }
}
