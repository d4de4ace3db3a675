/**
 * The URL extraction of `search_and_scrape` in tools.py. The pattern is
 * `http`, an optional `s`, `://`, then one or more characters from the
 * class below; `re.findall` scans from the left, and only the first match
 * is ever used, so what is modelled is the leftmost, longest match.
 */
module Urls {
  import opened Wrappers

  const Http: string := "http://"
  const Https: string := "https://"

  /**
   * One character of the repeated group, alternative by alternative:
   * `[a-zA-Z]`, `[0-9]`, the range `[$-_]` (0x24 to 0x5F, which takes in
   * `@`, `.`, `&` and `+`), and `[!*\\(\\),]`.
   */
  predicate IsUrlChar(c: char) {
    || ('a' <= c <= 'z') || ('A' <= c <= 'Z')
    || ('0' <= c <= '9')
    || ('$' <= c <= '_') || c == '@' || c == '.' || c == '&' || c == '+'
    || c == '!' || c == '*' || c == '\\' || c == '(' || c == ')' || c == ','
  }

  predicate IsHexDigit(c: char) {
    ('0' <= c <= '9') || ('a' <= c <= 'f') || ('A' <= c <= 'F')
  }

  /**
   * The class is the lower-case letters, everything from `$` to `_`, and
   * `!`; what stops a URL is a control character, space, `"`, `#`, a
   * backquote, `{`, `|`, `}`, `~`, DEL, or any character beyond ASCII.
   */
  lemma UrlCharSet(c: char)
    ensures IsUrlChar(c) <==> ('a' <= c <= 'z') || ('$' <= c <= '_') || c == '!'
    ensures !IsUrlChar(c) <==> c < '!' || c == '"' || c == '#' || c == '`' || c >= '{'
  {
  }

  /** The `%XX` alternative adds nothing: its three characters are already in the class. */
  lemma PercentEscapeSubsumed(c0: char, c1: char, c2: char)
    requires c0 == '%' && IsHexDigit(c1) && IsHexDigit(c2)
    ensures IsUrlChar(c0) && IsUrlChar(c1) && IsUrlChar(c2)
  {
  }

  /** `p` occurs in `s` at position `i`. */
  predicate StartsAt(s: string, i: nat, p: string) {
    i + |p| <= |s| && s[i..i + |p|] == p
  }

  /**
   * The length of `http[s]?://` matched at position `i`, or 0. The
   * optional `s` is tried first; without it the pattern would need `:`
   * where the `s` stands, so there is nothing to fall back to.
   */
  function SchemeLen(s: string, i: nat): (k: nat)
    requires i <= |s|
    ensures k == 0 || (k == |Https| && StartsAt(s, i, Https)) || (k == |Http| && StartsAt(s, i, Http))
    ensures k == 0 <==> !StartsAt(s, i, Https) && !StartsAt(s, i, Http)
  {
    if StartsAt(s, i, Https) then |Https|
    else if StartsAt(s, i, Http) then |Http|
    else 0
  }

  /** The end of the longest run of URL characters that starts at `j`. */
  function RunEnd(s: string, j: nat): (k: nat)
    requires j <= |s|
    ensures j <= k <= |s|
    ensures forall m :: j <= m < k ==> IsUrlChar(s[m])
    ensures k == |s| || !IsUrlChar(s[k])
    decreases |s| - j
  {
    if j < |s| && IsUrlChar(s[j]) then RunEnd(s, j + 1) else j
  }

  /** A string the pattern matches as a whole: a scheme, then one or more URL characters. */
  predicate IsUrl(u: string) {
    var k := SchemeLen(u, 0);
    && k > 0
    && |u| > k
    && forall m :: k <= m < |u| ==> IsUrlChar(u[m])
  }

  /** The match of the pattern that starts at position `i`, if there is one. */
  function MatchAt(s: string, i: nat): (r: Option<string>)
    requires i <= |s|
    ensures r.Some? <==> SchemeLen(s, i) > 0 && i + SchemeLen(s, i) < |s| && IsUrlChar(s[i + SchemeLen(s, i)])
    ensures r.Some? ==> i + |r.value| <= |s| && r.value == s[i..i + |r.value|]
    ensures r.Some? ==> IsUrl(r.value)
    ensures r.Some? ==> i + |r.value| == |s| || !IsUrlChar(s[i + |r.value|])
  {
    var k := SchemeLen(s, i);
    if k == 0 || RunEnd(s, i + k) == i + k then None
    else
      var e := RunEnd(s, i + k);
      SchemeLenOfSlice(s, i, s[i..e]);
      Some(s[i..e])
  }

  /** The scheme at `i` is decided by the first eight characters there. */
  lemma SchemeLenOfSlice(s: string, i: nat, u: string)
    requires |u| >= |Https| && i + |u| <= |s| && s[i..i + |u|] == u
    ensures SchemeLen(s, i) == SchemeLen(u, 0)
  {
    assert s[i..i + |Https|] == u[..|Https|];
    assert s[i..i + |Http|] == u[..|Http|];
  }

  /** The leftmost position at or after `i` where the pattern matches. */
  function FirstMatchFrom(s: string, i: nat): (r: Option<nat>)
    requires i <= |s|
    ensures r.Some? ==> i <= r.value < |s| && MatchAt(s, r.value).Some?
    ensures r.Some? ==> forall j :: i <= j < r.value ==> MatchAt(s, j).None?
    ensures r.None? ==> forall j :: i <= j <= |s| ==> MatchAt(s, j).None?
    decreases |s| - i
  {
    if i == |s| then None
    else if MatchAt(s, i).Some? then Some(i)
    else FirstMatchFrom(s, i + 1)
  }

  /** `urls[0]` of `re.findall`, or nothing when the list is empty. */
  /**
   * There is a URL exactly when the pattern matches somewhere; it is then a
   * whole URL, and the match at one of the positions.
   */
  function FirstUrl(s: string): (r: Option<string>)
    ensures r.None? <==> forall i :: 0 <= i <= |s| ==> MatchAt(s, i).None?
    ensures r.Some? ==> IsUrl(r.value)
    ensures r.Some? ==> exists i :: 0 <= i < |s| && MatchAt(s, i) == r
  {
    match FirstMatchFrom(s, 0)
    case None => None
    case Some(i) => MatchAt(s, i)
  }

  /** The first URL is the whole-pattern match at the leftmost position where one starts. */
  lemma FirstUrlIsLeftmostMatch(s: string)
    ensures FirstUrl(s).Some? ==> exists i :: 0 <= i < |s| && MatchAt(s, i) == FirstUrl(s) && forall j :: 0 <= j < i ==> MatchAt(s, j).None?
  {
  }

  lemma StartsAtExtend(s: string, x: string, i: nat, p: string)
    requires i < |s| && !IsUrlChar(s[|s| - 1])
    requires forall m :: 0 <= m < |p| ==> IsUrlChar(p[m])
    ensures StartsAt(s + x, i, p) <==> StartsAt(s, i, p)
    ensures StartsAt(s, i, p) ==> i + |p| < |s|
  {
    if i + |p| < |s| {
      assert (s + x)[i..i + |p|] == s[i..i + |p|];
    } else if i + |p| <= |s| + |x| {
      var m := |s| - 1 - i;
      assert (s + x)[i..i + |p|][m] == s[|s| - 1];
      assert (s + x)[i..i + |p|] != p by {
        assert IsUrlChar(p[m]);
      }
      if i + |p| == |s| {
        assert s[i..i + |p|][m] == s[|s| - 1];
        assert s[i..i + |p|] != p by {
          assert IsUrlChar(p[m]);
        }
      }
    }
  }

  lemma {:induction false} RunEndExtend(s: string, x: string, j: nat)
    requires j < |s| && !IsUrlChar(s[|s| - 1])
    ensures RunEnd(s + x, j) == RunEnd(s, j)
    decreases |s| - j
  {
    assert (s + x)[j] == s[j];
    if IsUrlChar(s[j]) {
      RunEndExtend(s, x, j + 1);
    }
  }

  /**
   * Whether a match starts at `i` does not depend on anything after the
   * first character that cannot be part of a URL.
   */
  lemma MatchAtExtend(s: string, x: string, i: nat)
    requires i < |s| && !IsUrlChar(s[|s| - 1])
    ensures MatchAt(s + x, i) == MatchAt(s, i)
  {
    StartsAtExtend(s, x, i, Https);
    StartsAtExtend(s, x, i, Http);
    var k := SchemeLen(s, i);
    assert SchemeLen(s + x, i) == k;
    if k > 0 {
      RunEndExtend(s, x, i + k);
      var e := RunEnd(s, i + k);
      assert (s + x)[i..e] == s[i..e];
    }
  }

  /** The run of URL characters from `j` ends exactly at `e`. */
  lemma RunEndAt(s: string, j: nat, e: nat)
    requires j <= e <= |s|
    requires forall m :: j <= m < e ==> IsUrlChar(s[m])
    requires e == |s| || !IsUrlChar(s[e])
    ensures RunEnd(s, j) == e
  {
  }

  /** The first URL is the match at the first position where one starts. */
  lemma FirstUrlAt(s: string, i: nat)
    requires i <= |s| && MatchAt(s, i).Some?
    requires forall j :: 0 <= j < i ==> MatchAt(s, j).None?
    ensures FirstUrl(s) == MatchAt(s, i)
  {
    var r := FirstMatchFrom(s, 0);
    assert r == Some(i);
  }

  /** A whole URL followed by a character that ends URLs is matched at its start. */
  lemma MatchAtUrl(s: string, i: nat, u: string)
    requires IsUrl(u) && i + |u| <= |s| && s[i..i + |u|] == u
    requires i + |u| == |s| || !IsUrlChar(s[i + |u|])
    ensures MatchAt(s, i) == Some(u)
  {
    SchemeLenOfSlice(s, i, u);
    var k := SchemeLen(u, 0);
    forall m | i + k <= m < i + |u| ensures IsUrlChar(s[m]) {
      assert s[m] == u[m - i];
    }
    RunEndAt(s, i + k, i + |u|);
  }

  /**
   * Search text that carries a URL after a stretch with no match, and
   * follows it with a character that ends URLs, yields exactly that URL.
   */
  lemma FirstUrlEmbedded(p: string, u: string, t: string)
    requires FirstUrl(p).None?
    requires p == [] || !IsUrlChar(p[|p| - 1])
    requires IsUrl(u)
    requires t == [] || !IsUrlChar(t[0])
    ensures FirstUrl(p + u + t) == Some(u)
  {
    FirstUrlIsLeftmostMatch(p);
    var s := p + u + t;
    forall i | 0 <= i < |p| ensures MatchAt(s, i).None? {
      assert s == p + (u + t);
      MatchAtExtend(p, u + t, i);
    }
    assert s[|p|..|p| + |u|] == u;
    assert |p| + |u| == |s| || s[|p| + |u|] == t[0];
    MatchAtUrl(s, |p|, u);
    FirstUrlAt(s, |p|);
  }

  /** At a position where `http` does not start there is no scheme. */
  lemma NoSchemeAt(s: string, i: nat)
    requires i <= |s| && !StartsAt(s, i, "http")
    ensures SchemeLen(s, i) == 0
  {
    if i + |Http| <= |s| {
      assert s[i..i + |Http|][..4] == s[i..i + 4];
    }
    if i + |Https| <= |s| {
      assert s[i..i + |Https|][..4] == s[i..i + 4];
    }
  }

  /** Text with no `http` in it yields no URL. */
  lemma NoSchemeNoUrl(s: string)
    requires forall i :: 0 <= i <= |s| ==> !StartsAt(s, i, "http")
    ensures FirstUrl(s).None?
  {
    forall i | 0 <= i <= |s| ensures MatchAt(s, i).None? {
      NoSchemeAt(s, i);
    }
    FirstUrlIsLeftmostMatch(s);
  }

  /**
   * Because `$-_` is a range, characters such as `<`, `>` and `'` are part
   * of the class: a closing angle bracket after a URL is taken into it.
   */
  lemma AngleBracketKept()
    ensures FirstUrl("Visit https://a.b> now") == Some("https://a.b>")
  {
    var p, u, t := "Visit ", "https://a.b>", " now";
    forall i | 0 <= i <= |p| ensures !StartsAt(p, i, "http") {
      if i + 4 <= |p| {
        assert p[i..i + 4][0] == p[i] != 'h';
      }
    }
    NoSchemeNoUrl(p);
    assert "Visit https://a.b> now" == p + u + t;
    assert SchemeLen(u, 0) == |Https| by {
      assert u[..|Https|] == Https;
    }
    FirstUrlEmbedded(p, u, t);
  }
}
