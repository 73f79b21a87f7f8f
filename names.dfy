/**
 * Identity normalisation of dependency descriptors (injector.js, `_clearName`,
 * `_getModuleName`, `_getModuleUrl`).
 *
 * A descriptor is either a plain string or a one-key object `{name: url}`.
 * `_clearName` runs the regular expression `/http[s]?:\/\/[^\/]+(.*).js$/i`;
 * `UrlCapture` below is a hand-written matcher for exactly that expression
 * (unanchored at the start, anchored at the end, ASCII case-insensitive, the
 * `.` before `js` matching any character but a line terminator), and
 * `UrlCaptureCorrect` proves it agrees with a declarative reading of the
 * expression: the leftmost match, with the greedy host part.
 */
module Names {

  import opened Wrappers

  /** A dependency as written by a caller. */
  datatype Descriptor =
    | Name(s: string)                  // 'path/or/url'
    | Pair(key: string, url: string)   // {key: url}

  // ---------------------------------------------------------------------
  // The regular expression of `_clearName`
  // ---------------------------------------------------------------------

  /** `c` equals the lower-case ASCII letter `lower` ignoring case (the `i` flag). */
  predicate CiIs(c: char, lower: char)
    requires 'a' <= lower <= 'z'
  {
    c == lower || c as int == lower as int - 32
  }

  /** The characters `.` does not match in a JavaScript regular expression. */
  predicate LineTerminator(c: char) {
    c == '\n' || c == '\r' || c == ' ' || c == ' '
  }

  predicate CiHttpAt(s: string, p: int) {
    0 <= p && p + 4 <= |s| && CiIs(s[p], 'h') && CiIs(s[p + 1], 't') && CiIs(s[p + 2], 't') && CiIs(s[p + 3], 'p')
  }

  predicate ColonSlashSlashAt(s: string, p: int) {
    0 <= p && p + 3 <= |s| && s[p] == ':' && s[p + 1] == '/' && s[p + 2] == '/'
  }

  /** `http[s]?://` matches at `p` and ends at `q` (declarative). */
  predicate Scheme(s: string, p: int, q: int) {
    CiHttpAt(s, p) &&
    ((q == p + 7 && ColonSlashSlashAt(s, p + 4)) ||
     (q == p + 8 && p + 4 < |s| && CiIs(s[p + 4], 's') && ColonSlashSlashAt(s, p + 5)))
  }

  predicate NoSlashIn(s: string, lo: int, hi: int) {
    0 <= lo <= hi <= |s| && forall i :: lo <= i < hi ==> s[i] != '/'
  }

  predicate NoLineTerminatorIn(s: string, lo: int, hi: int) {
    0 <= lo <= hi <= |s| && forall i :: lo <= i < hi ==> !LineTerminator(s[i])
  }

  /**
   * The whole expression matches `s` starting at `p`, with the scheme ending
   * at `q` and the host `[^\/]+` spanning `s[q..h]`; the group `(.*)` is then
   * `s[h..|s|-3]`, followed by any non-line-terminator and `js` at the end.
   */
  predicate RegexMatch(s: string, p: int, q: int, h: int) {
    Scheme(s, p, q) && q < h && h + 3 <= |s| &&
    NoSlashIn(s, q, h) && NoLineTerminatorIn(s, h, |s| - 2) &&
    CiIs(s[|s| - 2], 'j') && CiIs(s[|s| - 1], 's')
  }

  /** Where the scheme matched at `p` ends, trying `https://` before `http://`. */
  function SchemeEnd(s: string, p: nat): (r: Option<nat>)
    ensures r.Some? <==> exists q :: Scheme(s, p, q)
    ensures r.Some? ==> Scheme(s, p, r.value)
  {
    if !CiHttpAt(s, p) then None
    else if p + 4 < |s| && CiIs(s[p + 4], 's') && ColonSlashSlashAt(s, p + 5) then
      assert Scheme(s, p, p + 8);
      Some(p + 8)
    else if ColonSlashSlashAt(s, p + 4) then
      assert Scheme(s, p, p + 7);
      Some(p + 7)
    else None
  }

  /** Index of the first `/` at or after `q`, or `|s|`. */
  function FirstSlash(s: string, q: nat): (r: nat)
    requires q <= |s|
    ensures q <= r <= |s| && NoSlashIn(s, q, r)
    ensures r < |s| ==> s[r] == '/'
    decreases |s| - q
  {
    if q == |s| || s[q] == '/' then q else FirstSlash(s, q + 1)
  }

  function Min(a: nat, b: nat): nat { if a <= b then a else b }

  /** The group captured by a match starting at `p`, if one starts there. */
  function MatchAt(s: string, p: nat): Option<string>
  {
    match SchemeEnd(s, p)
    case None => None
    case Some(q) =>
      if q + 3 >= |s| then None
      else
        var h := Min(FirstSlash(s, q), |s| - 3);
        if h > q && NoLineTerminatorIn(s, h, |s| - 2) && CiIs(s[|s| - 2], 'j') && CiIs(s[|s| - 1], 's')
        then Some(s[h..|s| - 3])
        else None
  }

  /** The group of the leftmost match at or after `p`; `UrlCapture` starts at 0. */
  function FirstMatchFrom(s: string, p: nat): Option<string>
    decreases |s| - p
  {
    if p > |s| then None
    else match MatchAt(s, p)
      case Some(c) => Some(c)
      case None => FirstMatchFrom(s, p + 1)
  }

  function UrlCapture(s: string): Option<string> { FirstMatchFrom(s, 0) }

  /** The match at `p` exists exactly when some q, h match there; it picks the greedy host. */
  lemma MatchAtCorrect(s: string, p: nat)
    ensures MatchAt(s, p).Some? <==> exists q, h :: RegexMatch(s, p, q, h)
    ensures MatchAt(s, p).Some? ==>
      exists q, h :: RegexMatch(s, p, q, h) && MatchAt(s, p).value == s[h..|s| - 3] &&
        forall q', h' :: RegexMatch(s, p, q', h') ==> h' <= h
  {
    match SchemeEnd(s, p)
    case None =>
    case Some(q) =>
      // the scheme end is unique
      assert forall q' :: Scheme(s, p, q') ==> q' == q;
      if q + 3 < |s| {
        var f := FirstSlash(s, q);
        var h := Min(f, |s| - 3);
        forall q', h' | RegexMatch(s, p, q', h')
          ensures h' <= h && h > q && NoLineTerminatorIn(s, h, |s| - 2)
        {
          assert q' == q;
        }
        if MatchAt(s, p).Some? {
          assert RegexMatch(s, p, q, h);
        }
      }
  }

  lemma {:induction false} FirstMatchFromCorrect(s: string, p: nat)
    ensures FirstMatchFrom(s, p).Some? <==> exists p', q, h :: p <= p' && RegexMatch(s, p', q, h)
    ensures FirstMatchFrom(s, p).Some? ==>
      exists p', q, h :: p <= p' && RegexMatch(s, p', q, h) && FirstMatchFrom(s, p).value == s[h..|s| - 3] &&
        forall p'', q', h' :: p <= p'' && RegexMatch(s, p'', q', h') ==> p' <= p'' && (p'' == p' ==> h' <= h)
    decreases |s| - p
  {
    if p > |s| {
      forall p', q, h | p <= p' ensures !RegexMatch(s, p', q, h) { }
    } else {
      MatchAtCorrect(s, p);
      match MatchAt(s, p)
      case Some(c) =>
      case None =>
        FirstMatchFromCorrect(s, p + 1);
        forall p', q, h | p <= p' && RegexMatch(s, p', q, h) ensures p + 1 <= p' {
          if p' == p { assert false; }
        }
    }
  }

  /**
   * `UrlCapture` is the first group of the leftmost match of the expression,
   * with the longest host (the `[^\/]+` part is greedy); `None` when the
   * expression does not match at all.
   */
  lemma UrlCaptureCorrect(s: string)
    ensures UrlCapture(s).Some? <==> exists p, q, h :: RegexMatch(s, p, q, h)
    ensures UrlCapture(s).Some? ==>
      exists p, q, h :: RegexMatch(s, p, q, h) && UrlCapture(s).value == s[h..|s| - 3] &&
        forall p', q', h' :: RegexMatch(s, p', q', h') ==> p <= p' && (p' == p ==> h' <= h)
  {
    FirstMatchFromCorrect(s, 0);
  }

  // ---------------------------------------------------------------------
  // _clearName, _getModuleName, _getModuleUrl
  // ---------------------------------------------------------------------

  /** `UrlCapture(s)` is a match whose group is non-empty (`match[1]` is truthy). */
  predicate HasUrlName(s: string) {
    UrlCapture(s).Some? && UrlCapture(s).value != ""
  }

  /** `_clearName`: the URL's path without `http(s)://host` and `.js`, else one leading `/` dropped. */
  function ClearName(s: string): (r: string)
    ensures exists i, j :: 0 <= i <= j <= |s| && r == s[i..j]
  {
    if HasUrlName(s) then
      UrlCaptureCorrect(s);
      UrlCapture(s).value
    else if |s| > 0 && s[0] == '/' then
      assert s[1..] == s[1..|s|];
      s[1..]
    else
      assert s == s[0..|s|];
      s
  }

  /** `_getModuleName`: a string gets `'/' + _clearName(s)`, a pair its key. */
  function GetModuleName(d: Descriptor): (r: string)
    ensures d.Name? ==> |r| >= 1 && r[0] == '/' && r[1..] == ClearName(d.s)
    ensures d.Pair? ==> r == d.key
  {
    match d
    case Name(s) => "/" + ClearName(s)
    case Pair(k, _) => k
  }

  /** `_getModuleUrl`: a string is its own locator; a pair gives its value. */
  function GetModuleUrl(d: Descriptor): (r: string)
    ensures d.Name? ==> r == d.s
    ensures d.Pair? ==> r == d.url
  {
    match d
    case Name(s) => s
    case Pair(_, u) => u
  }

  /**
   * The registry key a descriptor denotes when it is used as a property name
   * without normalisation (`injector._dependencies[dep]`): a string is its own
   * key, an object converts to "[object Object]".
   */
  function RawKey(d: Descriptor): string
  {
    match d
    case Name(s) => s
    case Pair(_, _) => "[object Object]"
  }

  /** `root.deps.map(_getModuleName)`, the result kept as strings. */
  function NormaliseAll(ds: seq<Descriptor>): (r: seq<Descriptor>)
    ensures |r| == |ds|
    ensures forall i :: 0 <= i < |ds| ==> r[i] == Name(GetModuleName(ds[i]))
  {
    if ds == [] then [] else [Name(GetModuleName(ds[0]))] + NormaliseAll(ds[1..])
  }

  function UrlsOf(ds: seq<Descriptor>): (r: seq<string>)
    ensures |r| == |ds|
    ensures forall i :: 0 <= i < |ds| ==> r[i] == GetModuleUrl(ds[i])
  {
    if ds == [] then [] else [GetModuleUrl(ds[0])] + UrlsOf(ds[1..])
  }

  // ---------------------------------------------------------------------
  // Properties
  // ---------------------------------------------------------------------

  /**
   * The three cases of `_clearName`, stated against the expression itself:
   * a match with a non-empty group gives that group (leftmost match, greedy
   * host); otherwise one leading `/` is dropped; otherwise `s` is unchanged.
   */
  lemma ClearNameCases(s: string)
    ensures (exists p, q, h :: RegexMatch(s, p, q, h) &&
              (forall p', q', h' :: RegexMatch(s, p', q', h') ==> p <= p' && (p' == p ==> h' <= h)) &&
              h < |s| - 3 && ClearName(s) == s[h..|s| - 3])
         || (!HasUrlName(s) && |s| > 0 && s[0] == '/' && ClearName(s) == s[1..])
         || (!HasUrlName(s) && (|s| == 0 || s[0] != '/') && ClearName(s) == s)
  {
    UrlCaptureCorrect(s);
  }

  /**
   * A name that starts with `/` and has no URL group is a fixed point of
   * `_getModuleName`, which is what re-mapping `root.deps` on every call relies on.
   */
  lemma NameFixedPoint(t: string)
    requires |t| > 0 && t[0] == '/' && !HasUrlName(t)
    ensures GetModuleName(Name(t)) == t
  {
    assert "/" + t[1..] == t;
  }

  /**
   * A pair's key `k` is not a fixed point: once `root.deps` holds it as a
   * plain string, the next re-mapping turns it into `'/' + k`.
   */
  lemma PairKeyNotFixed(k: string, u: string)
    requires !HasUrlName(k) && (|k| == 0 || k[0] != '/')
    ensures GetModuleName(Name(GetModuleName(Pair(k, u)))) == "/" + k
    ensures GetModuleName(Name(GetModuleName(Pair(k, u)))) != GetModuleName(Pair(k, u))
  {
    var r := GetModuleName(Name(k));
    assert r == "/" + k;
    assert |r| == |k| + 1;
  }

  /** A bare name and the same name with a leading `/` give the same module name. */
  lemma BareAndRootedAgree(a: string)
    requires |a| > 0 && a[0] != '/' && !HasUrlName(a) && !HasUrlName("/" + a)
    ensures GetModuleName(Name(a)) == GetModuleName(Name("/" + a)) == "/" + a
  {
    assert ("/" + a)[1..] == a;
  }

  /**
   * A full URL does not give the same module name as the bare name it
   * locates: `http://h/a.js` becomes `//a` (the group keeps its leading `/`),
   * `a` and `/a` become `/a`.
   */
  lemma UrlAndBareNameDiffer()
    ensures GetModuleName(Name("http://h/a.js")) == "//a"
    ensures GetModuleName(Name("a")) == "/a"
  {
    var u := "http://h/a.js";
    assert SchemeEnd(u, 0) == Some(7);
    assert FirstSlash(u, 7) == 8;
    assert NoLineTerminatorIn(u, 8, |u| - 2);
    assert u[8..10] == "/a";
    assert MatchAt(u, 0) == Some("/a");
    assert UrlCapture(u) == Some("/a");
    assert MatchAt("a", 0) == None;
    assert MatchAt("a", 1) == None;
    assert UrlCapture("a") == None;
  }

  lemma NestedUrlClearName()
    ensures ClearName("http://h/http://g/a.js.js") == "/http://g/a.js"
  {
    NestedUrlCapture();
  }

  lemma NestedUrlCapture()
    ensures UrlCapture("http://h/http://g/a.js.js") == Some("/http://g/a.js")
  {
    NestedUrlMatch();
  }

  lemma NestedUrlMatch()
    ensures MatchAt("http://h/http://g/a.js.js", 0) == Some("/http://g/a.js")
  {
    var u := "http://h/http://g/a.js.js";
    NestedUrlHost();
    NestedUrlTail();
    assert Min(FirstSlash(u, 7), |u| - 3) == 8;
  }

  lemma NestedUrlHost()
    ensures SchemeEnd("http://h/http://g/a.js.js", 0) == Some(7)
    ensures FirstSlash("http://h/http://g/a.js.js", 7) == 8
  {
    var u := "http://h/http://g/a.js.js";
    assert CiHttpAt(u, 0) && ColonSlashSlashAt(u, 4);
    assert u[8] == '/';
  }

  lemma NestedUrlTail()
    ensures var u := "http://h/http://g/a.js.js";
      NoLineTerminatorIn(u, 8, |u| - 2) && CiIs(u[|u| - 2], 'j') && CiIs(u[|u| - 1], 's') &&
      u[8..|u| - 3] == "/http://g/a.js"
  {
    var u := "http://h/http://g/a.js.js";
    assert u[8..|u| - 3] == "/http://g/a.js";
  }

  lemma RootedUrlClearName()
    ensures ClearName("//http://g/a.js") == "/a"
  {
    RootedUrlCapture();
  }

  lemma RootedUrlCapture()
    ensures UrlCapture("//http://g/a.js") == Some("/a")
  {
    var v := "//http://g/a.js";
    assert MatchAt(v, 0) == None;
    assert MatchAt(v, 1) == None;
    assert SchemeEnd(v, 2) == Some(9);
    assert FirstSlash(v, 9) == 10;
    assert NoLineTerminatorIn(v, 10, |v| - 2);
    assert v[10..12] == "/a";
  }

  /**
   * `_getModuleName` is not idempotent on strings: there is a descriptor
   * whose module name is changed again by the next re-mapping of
   * `root.deps` (the witness is the one of `NestedUrlRemapped`).
   */
  lemma NameNotIdempotent()
    ensures exists s :: GetModuleName(Name(GetModuleName(Name(s)))) != GetModuleName(Name(s))
  {
    var s := "http://h/http://g/a.js.js";
    NestedUrlRemapped();
    var n := GetModuleName(Name(s));
    var n2 := GetModuleName(Name(n));
    assert n[1..] == ClearName(s) == "/http://g/a.js";
    assert n2[1..] == ClearName(n) == "/a";
    assert n2 != n;
  }

  /**
   * A module name can itself contain a URL match: `http://h/http://g/a.js.js`
   * has the module name `//http://g/a.js`, which clears to `/a` and not back
   * to `/http://g/a.js`, so the next re-mapping gives `//a`.
   */
  lemma NestedUrlRemapped()
    ensures ClearName("http://h/http://g/a.js.js") == "/http://g/a.js"
    ensures ClearName("/" + ClearName("http://h/http://g/a.js.js")) == "/a"
  {
    NestedUrlClearName();
    RootedNestedName();
    RootedUrlClearName();
  }

  lemma RootedNestedName()
    ensures "/" + "/http://g/a.js" == "//http://g/a.js"
  {
  }
}
