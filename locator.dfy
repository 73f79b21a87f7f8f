/**
 * Locator rules of `_resolveFile`'s download step (injector.js 245-264): the
 * default `.js` extension and the choice of loading strategy by extension.
 */
module Locator {

  import opened Wrappers

  /** How a download settles, by the extension of its locator. */
  datatype Strategy =
    | Script         // 'js': a script tag (`_loadJS`)
    | Text           // 'html', 'json': an XMLHttpRequest (`_loadString`)
    | NeverSettles   // any other extension: the switch has no case, the promise stays pending
    | ExtTypeError   // `url.match(...)` is null and `ext.length` throws

  /** `s.lastIndexOf(c)`: the last index holding `c`, or -1. */
  function LastIndexOf(s: string, c: char): (r: int)
    ensures -1 <= r < |s|
    ensures r >= 0 ==> s[r] == c
    ensures forall i :: r < i < |s| ==> s[i] != c
  {
    if s == [] then -1
    else if s[|s| - 1] == c then |s| - 1
    else LastIndexOf(s[..|s| - 1], c)
  }

  /** `if (url.lastIndexOf('.') < url.length - 5) url += '.js'`. */
  function WithDefaultExt(url: string): string
  {
    if LastIndexOf(url, '.') < |url| - 5 then url + ".js" else url
  }

  /**
   * `.js` is appended exactly when the locator has at least five characters
   * and none of its last five is a `.`; a shorter locator is left alone.
   */
  lemma DefaultExtCases(url: string)
    ensures WithDefaultExt(url) == url + ".js" || WithDefaultExt(url) == url
    ensures WithDefaultExt(url) == url + ".js" <==>
      (|url| >= 5 && forall i :: |url| - 5 <= i < |url| ==> url[i] != '.')
  {
    var k := LastIndexOf(url, '.');
    if |url| >= 5 && forall i :: |url| - 5 <= i < |url| ==> url[i] != '.' {
      assert k < |url| - 5;
    } else if |url| >= 5 {
      var i :| |url| - 5 <= i < |url| && url[i] == '.';
      assert k >= i;
      assert |url + ".js"| != |url|;
    } else {
      assert |url + ".js"| != |url|;
    }
  }

  predicate LowerLetters(e: string) {
    forall i :: 0 <= i < |e| ==> 'a' <= e[i] <= 'z'
  }

  /** The group of `/\.([a-z]{2,5})$/`, if it matches. */
  function ExtOf(url: string): Option<string>
  {
    var k := LastIndexOf(url, '.');
    if k >= 0 && 2 <= |url| - k - 1 <= 5 && LowerLetters(url[k + 1..]) then Some(url[k + 1..])
    else None
  }

  /**
   * `ExtOf` agrees with the expression: it matches exactly when the locator
   * ends with a `.` followed by two to five lower-case letters, and the group
   * is those letters.
   */
  lemma ExtOfCorrect(url: string)
    ensures ExtOf(url).Some? <==>
      exists p :: 0 <= p < |url| && url[p] == '.' && 2 <= |url| - p - 1 <= 5 && LowerLetters(url[p + 1..])
    ensures ExtOf(url).Some? ==>
      var e := ExtOf(url).value;
      2 <= |e| <= 5 && LowerLetters(e) && |e| < |url| && url[|url| - |e| - 1] == '.' && url[|url| - |e|..] == e
  {
    var k := LastIndexOf(url, '.');
    if p :| 0 <= p < |url| && url[p] == '.' && 2 <= |url| - p - 1 <= 5 && LowerLetters(url[p + 1..]) {
      assert k >= p;
      if k > p {
        assert url[p + 1..][k - p - 1] == url[k];
      }
    }
  }

  /** The `switch (ext)` of the download step, after the default extension. */
  function StrategyOf(url: string): Strategy
  {
    match ExtOf(WithDefaultExt(url))
    case None => ExtTypeError
    case Some(e) =>
      if e == "js" then Script
      else if e == "html" || e == "json" then Text
      else NeverSettles
  }

  /** A locator given the default extension is loaded as a script. */
  lemma DefaultIsScript(url: string)
    requires |url| >= 5 && forall i :: |url| - 5 <= i < |url| ==> url[i] != '.'
    ensures StrategyOf(url) == Script
  {
    DefaultExtCases(url);
    var v := url + ".js";
    assert v[|url|] == '.' && v[|url| + 1] == 'j' && v[|url| + 2] == 's';
    assert LastIndexOf(v, '.') == |url|;
    assert v[|url| + 1..] == "js";
  }

  /** A locator shorter than five characters without an extension makes `ext.length` throw. */
  lemma ShortBareNameThrows(url: string)
    requires |url| < 5 && forall i :: 0 <= i < |url| ==> url[i] != '.'
    ensures StrategyOf(url) == ExtTypeError
  {
    DefaultExtCases(url);
  }
}
