/**
 * The eligibility filter: a blob is converted when the extension of its URL,
 * with its dots removed, contains "txt", "docx" or "ppt" in any letter case.
 * This is a substring test, as `Regex.IsMatch(token, "txt|docx|ppt", IgnoreCase)`
 * is: "pptx" and "xtxt" are accepted too.
 */
module Eligibility {
  import opened Common

  /** The characters at which `Path.GetExtension` stops its backward scan. */
  predicate IsSeparator(c: char) {
    c == '/' || c == '\\'
  }

  /** The dot at `k` is the last dot of the last path segment of `s`. */
  ghost predicate LastDotAt(s: string, k: int) {
    0 <= k < |s| && s[k] == '.' &&
    forall j :: k < j < |s| ==> s[j] != '.' && !IsSeparator(s[j])
  }

  /** Scans `s` from its end for a dot, giving up at the first separator. */
  function DotIndex(s: string): (r: Option<nat>)
    ensures r.Some? ==> LastDotAt(s, r.value)
    ensures forall k :: LastDotAt(s, k) ==> r == Some(k)
    decreases |s|
  {
    if s == [] then None
    else if s[|s| - 1] == '.' then Some(|s| - 1)
    else if IsSeparator(s[|s| - 1]) then None
    else DotIndex(s[..|s| - 1])
  }

  /**
   * `Path.GetExtension`: the text from the last dot of the last path segment
   * to the end, or empty when that segment has no dot or ends with it.
   */
  function Extension(s: string): (e: string)
    ensures e != [] ==> 2 <= |e| <= |s| && e == s[|s| - |e|..] && LastDotAt(s, |s| - |e|)
    ensures e == [] ==> forall k :: LastDotAt(s, k) ==> k == |s| - 1
  {
    match DotIndex(s)
    case None => []
    case Some(k) => if k == |s| - 1 then [] else s[k..]
  }

  /** `String.Replace(c, "")`: every occurrence of `c` removed, the rest kept in order. */
  function Without(s: string, c: char): (r: string)
    ensures c !in r
    ensures multiset(r) == multiset(s)[c := 0]
    ensures |r| + multiset(s)[c] == |s|
    ensures c !in s ==> r == s
  {
    if s == [] then []
    else
      assert s == [s[0]] + s[1..];
      (if s[0] == c then [] else [s[0]]) + Without(s[1..], c)
  }

  /** Removing `c` from a string that starts with `x` decides `x` first. */
  lemma WithoutCons(x: char, s: string, c: char)
    ensures Without([x] + s, c) == (if x == c then [] else [x]) + Without(s, c)
  {
    var t := [x] + s;
    assert t[0] == x && t[1..] == s;
  }

  /** Concatenation regrouped. */
  lemma Regroup(k: string, p: string, q: string)
    ensures k + (p + q) == (k + p) + q
  {
  }

  /** One step of `WithoutAppend`: putting `x` in front of `rest` keeps the split. */
  lemma WithoutAppendCons(x: char, rest: string, b: string, c: char)
    requires Without(rest + b, c) == Without(rest, c) + Without(b, c)
    ensures Without([x] + rest + b, c) == Without([x] + rest, c) + Without(b, c)
  {
    Regroup([x], rest, b);
    WithoutCons(x, rest + b, c);
    WithoutCons(x, rest, c);
    Regroup(if x == c then [] else [x], Without(rest, c), Without(b, c));
  }

  /** Removing `c` works piece by piece, so the characters kept stay in their order. */
  lemma {:induction false} WithoutAppend(a: string, b: string, c: char)
    ensures Without(a + b, c) == Without(a, c) + Without(b, c)
  {
    if a == [] {
      assert a + b == b;
    } else {
      assert a == [a[0]] + a[1..];
      WithoutAppend(a[1..], b, c);
      WithoutAppendCons(a[0], a[1..], b, c);
    }
  }

  /** A single character is kept exactly when it is not `c`. */
  lemma WithoutSingle(x: char, c: char)
    ensures Without([x], c) == if x == c then [] else [x]
  {
    assert [x][1..] == [];
  }

  /** The dot-free extension token that the pattern is matched against. */
  function ExtensionToken(url: string): (t: string)
    ensures '.' !in t
    ensures forall k :: LastDotAt(url, k) ==> t == url[k + 1..]
    ensures (forall k :: !LastDotAt(url, k)) ==> t == []
  {
    var e := Extension(url);
    if e == [] then []
    else
      assert e == ['.'] + e[1..];
      Without(e, '.')
  }

  /** Lower-case of an ASCII letter; every other character is its own lower case. */
  function Lower(c: char): char {
    if 'A' <= c <= 'Z' then (c as int + 32) as char else c
  }

  /**
   * Two characters fold together exactly when they are equal or are the
   * upper- and lower-case forms of one ASCII letter; a folded character is
   * never an upper-case ASCII letter and folds to itself.
   */
  lemma LowerPairs(c: char, d: char)
    ensures Lower(c) == Lower(d) <==>
            c == d || ('A' <= c <= 'Z' && d as int == c as int + 32) || ('A' <= d <= 'Z' && c as int == d as int + 32)
    ensures !('A' <= Lower(c) <= 'Z') && Lower(Lower(c)) == Lower(c)
  {
  }

  /** `w` occurs in `s` at offset `i`, letter case ignored. */
  predicate MatchesAt(s: string, w: string, i: int) {
    0 <= i && i + |w| <= |s| &&
    forall j :: 0 <= j < |w| ==> Lower(s[i + j]) == Lower(w[j])
  }

  /** The leftmost-first scan a regular expression without anchors performs. */
  function ContainsIgnoreCase(s: string, w: string): bool
    decreases |s|
  {
    if |s| < |w| then false
    else MatchesAt(s, w, 0) || ContainsIgnoreCase(s[1..], w)
  }

  /** `Regex.IsMatch(t, "txt|docx|ppt", RegexOptions.IgnoreCase)`. */
  function MatchesPattern(t: string): bool {
    ContainsIgnoreCase(t, "txt") || ContainsIgnoreCase(t, "docx") || ContainsIgnoreCase(t, "ppt")
  }

  /** The filter itself. Total: no input makes it fail. */
  function ShouldConvert(url: string): bool {
    MatchesPattern(ExtensionToken(url))
  }

  // ---------------------------------------------------------------------------
  // Reference definitions

  /** `w` occurs somewhere in `t`, letter case ignored. */
  ghost predicate Mentions(t: string, w: string) {
    exists i :: MatchesAt(t, w, i)
  }

  /** The three-way alternation, read as "one of the words occurs in the token". */
  ghost predicate AllowedToken(t: string) {
    Mentions(t, "txt") || Mentions(t, "docx") || Mentions(t, "ppt")
  }

  /** `a` and `b` differ at most in the case of ASCII letters. */
  ghost predicate SameIgnoringCase(a: string, b: string) {
    |a| == |b| && forall i :: 0 <= i < |a| ==> Lower(a[i]) == Lower(b[i])
  }

  // ---------------------------------------------------------------------------
  // Properties

  /** The scan finds an occurrence exactly when there is one. */
  lemma {:induction false} ContainsIgnoreCaseIff(s: string, w: string)
    ensures ContainsIgnoreCase(s, w) <==> Mentions(s, w)
    decreases |s|
  {
    if |s| >= |w| && !MatchesAt(s, w, 0) {
      ContainsIgnoreCaseIff(s[1..], w);
      if Mentions(s[1..], w) {
        var i :| MatchesAt(s[1..], w, i);
        assert MatchesAt(s, w, i + 1);
      }
      if Mentions(s, w) {
        var i :| MatchesAt(s, w, i);
        assert i != 0;
        assert MatchesAt(s[1..], w, i - 1);
      }
    } else if |s| < |w| {
      assert forall i :: !MatchesAt(s, w, i);
    }
  }

  /** The compiled alternation agrees with its reading as three substring tests. */
  lemma MatchesPatternIff(t: string)
    ensures MatchesPattern(t) <==> AllowedToken(t)
  {
    ContainsIgnoreCaseIff(t, "txt");
    ContainsIgnoreCaseIff(t, "docx");
    ContainsIgnoreCaseIff(t, "ppt");
  }

  /**
   * The filter accepts exactly the URLs whose last path segment has a dot
   * followed by a token in which one of the three words occurs.
   */
  lemma ShouldConvertIff(url: string)
    ensures ShouldConvert(url) <==> exists k :: LastDotAt(url, k) && AllowedToken(url[k + 1..])
  {
    MatchesPatternIff(ExtensionToken(url));
    if forall k :: !LastDotAt(url, k) {
      assert ExtensionToken(url) == [];
    } else {
      var k :| LastDotAt(url, k);
      assert ExtensionToken(url) == url[k + 1..];
    }
  }

  /** Without a dot in its last segment a URL is never converted. */
  lemma NoExtensionNotConverted(url: string)
    requires forall k :: !LastDotAt(url, k)
    ensures !ShouldConvert(url)
  {
    assert ExtensionToken(url) == [];
  }

  /**
   * A name ending in a dot and a token free of dots and separators is judged
   * on that token alone: the stem plays no part.
   */
  lemma ShouldConvertNamed(stem: string, token: string)
    requires forall i :: 0 <= i < |token| ==> token[i] != '.' && !IsSeparator(token[i])
    ensures ShouldConvert(stem + "." + token) == MatchesPattern(token)
    ensures ShouldConvert(stem + "." + token) <==> AllowedToken(token)
  {
    var s := stem + "." + token;
    assert LastDotAt(s, |stem|);
    assert s[|stem| + 1..] == token;
    MatchesPatternIff(token);
  }

  /** A word occurs in every case-variant of itself. */
  lemma WordMentionsItself(ext: string, w: string)
    requires SameIgnoringCase(ext, w)
    ensures ContainsIgnoreCase(ext, w)
  {
    assert MatchesAt(ext, w, 0);
  }

  /**
   * Every name ending in ".txt", ".docx" or ".ppt", in any letter case, is
   * converted, whatever its stem.
   */
  lemma AllowedExtensionConverted(stem: string, ext: string)
    requires SameIgnoringCase(ext, "txt") || SameIgnoringCase(ext, "docx") || SameIgnoringCase(ext, "ppt")
    ensures ShouldConvert(stem + "." + ext)
  {
    forall i | 0 <= i < |ext| ensures ext[i] != '.' && !IsSeparator(ext[i]) {
      assert 'a' <= Lower(ext[i]) <= 'z';
    }
    ShouldConvertNamed(stem, ext);
    if SameIgnoringCase(ext, "txt") {
      WordMentionsItself(ext, "txt");
    } else if SameIgnoringCase(ext, "docx") {
      WordMentionsItself(ext, "docx");
    } else {
      WordMentionsItself(ext, "ppt");
    }
  }

  /** A name ending in ".pdf" is never converted. */
  lemma PdfNotConverted(stem: string)
    ensures !ShouldConvert(stem + ".pdf")
  {
    assert !MatchesPattern("pdf") by {
      assert Lower("pdf"[0]) != Lower("txt"[0]);
      assert Lower("pdf"[1]) != Lower("ppt"[1]);
    }
    assert stem + ".pdf" == stem + "." + "pdf";
    ShouldConvertNamed(stem, "pdf");
  }

  /** Only the last path segment counts: whatever precedes a separator is ignored. */
  lemma OnlyLastSegmentCounts(dir: string, sep: char, name: string)
    requires IsSeparator(sep)
    ensures ExtensionToken(dir + [sep] + name) == ExtensionToken(name)
    ensures ShouldConvert(dir + [sep] + name) == ShouldConvert(name)
  {
    var s := dir + [sep] + name;
    var off := |dir| + 1;
    assert forall j :: 0 <= j < |name| ==> s[off + j] == name[j];
    if k :| LastDotAt(name, k) {
      assert LastDotAt(s, off + k);
      assert s[off + k + 1..] == name[k + 1..];
    } else {
      assert s[|dir|] == sep;
      forall m | LastDotAt(s, m) ensures false {
        assert m > |dir|;
        assert LastDotAt(name, m - off);
      }
    }
  }

  /** Changing the case of letters never changes the dot the scan finds. */
  lemma DotIndexIgnoresCase(a: string, b: string)
    requires SameIgnoringCase(a, b)
    ensures DotIndex(a) == DotIndex(b)
  {
    forall k | LastDotAt(a, k) ensures LastDotAt(b, k) {
      assert Lower(b[k]) == '.';
    }
    forall k | LastDotAt(b, k) ensures LastDotAt(a, k) {
      assert Lower(a[k]) == '.';
    }
  }

  /** Changing the case of letters never changes whether a word occurs. */
  lemma ContainsIgnoresCase(a: string, b: string, w: string)
    requires SameIgnoringCase(a, b)
    ensures ContainsIgnoreCase(a, w) == ContainsIgnoreCase(b, w)
  {
    ContainsIgnoreCaseIff(a, w);
    ContainsIgnoreCaseIff(b, w);
    forall i | MatchesAt(a, w, i) ensures MatchesAt(b, w, i) {
      forall j | 0 <= j < |w| ensures Lower(b[i + j]) == Lower(w[j]) {
        assert Lower(a[i + j]) == Lower(w[j]);
      }
    }
    forall i | MatchesAt(b, w, i) ensures MatchesAt(a, w, i) {
      forall j | 0 <= j < |w| ensures Lower(a[i + j]) == Lower(w[j]) {
        assert Lower(b[i + j]) == Lower(w[j]);
      }
    }
  }

  /** Case-insensitive equality carries over to suffixes. */
  lemma SuffixIgnoresCase(a: string, b: string, k: nat)
    requires SameIgnoringCase(a, b) && k <= |a|
    ensures SameIgnoringCase(a[k..], b[k..])
  {
    forall i | 0 <= i < |a| - k ensures Lower(a[k..][i]) == Lower(b[k..][i]) {
      assert a[k..][i] == a[k + i] && b[k..][i] == b[k + i];
    }
  }

  /** The tokens after the same dot of two case-variants are case-variants. */
  lemma TokenIgnoresCaseAt(a: string, b: string, k: nat)
    requires SameIgnoringCase(a, b)
    requires LastDotAt(a, k) && LastDotAt(b, k)
    ensures SameIgnoringCase(ExtensionToken(a), ExtensionToken(b))
  {
    assert ExtensionToken(a) == a[k + 1..];
    assert ExtensionToken(b) == b[k + 1..];
    SuffixIgnoresCase(a, b, k + 1);
  }

  /** Changing the case of letters changes the extension token only in the case of its letters. */
  lemma TokenIgnoresCase(a: string, b: string)
    requires SameIgnoringCase(a, b)
    ensures SameIgnoringCase(ExtensionToken(a), ExtensionToken(b))
  {
    DotIndexIgnoresCase(a, b);
    if DotIndex(a).Some? {
      TokenIgnoresCaseAt(a, b, DotIndex(a).value);
    } else {
      assert forall k :: !LastDotAt(a, k) && !LastDotAt(b, k);
    }
  }

  /** `a.TXT`, `a.Docx` and `a.docx` get the same answer: the filter ignores letter case. */
  lemma ShouldConvertIgnoresCase(a: string, b: string)
    requires SameIgnoringCase(a, b)
    ensures ShouldConvert(a) == ShouldConvert(b)
  {
    TokenIgnoresCase(a, b);
    var ta, tb := ExtensionToken(a), ExtensionToken(b);
    ContainsIgnoresCase(ta, tb, "txt");
    ContainsIgnoresCase(ta, tb, "docx");
    ContainsIgnoresCase(ta, tb, "ppt");
  }
}
