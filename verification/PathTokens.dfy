/** The path-token pattern of the archive wave: the regular expression's own backtracking order,
    the language it accepts, and how tokens survive an edit of the text around them. */
module PathTokens {
  import opened Text

  predicate IsName(c: char) { IsAlnum(c) || c == '.' || c == '_' || c == '-' }

  predicate IsPath(c: char) { IsName(c) || c == '/' }

  /** `.md` at `k`. */
  predicate MdAt(t: string, k: nat) { k + 3 <= |t| && t[k] == '.' && t[k + 1] == 'm' && t[k + 2] == 'd' }

  /** The look-ahead `(?![A-Za-z0-9])`. */
  predicate RightBoundary(t: string, e: nat) { e >= |t| || !IsAlnum(t[e]) }

  /** The look-behind `(?<![A-Za-z0-9._/-])`. */
  predicate LeftBoundary(t: string, i: nat)
    requires i <= |t|
  {
    i == 0 || !IsPath(t[i - 1])
  }

  function NameEnd(t: string, i: nat): (j: nat)
    requires i <= |t|
    ensures i <= j <= |t| && (forall k | i <= k < j :: IsName(t[k])) && (j < |t| ==> !IsName(t[j]))
    decreases |t| - i
  {
    if i < |t| && IsName(t[i]) then NameEnd(t, i + 1) else i
  }

  /** `\.mdx?` and the right boundary, tried at `k`: the longer extension first. */
  function TryExt(t: string, k: nat): (r: Option<nat>)
    ensures r.Some? ==> k < r.value <= |t|
  {
    if MdAt(t, k) && k + 3 < |t| && t[k + 3] == 'x' && RightBoundary(t, k + 4) then Some(k + 4)
    else if MdAt(t, k) && RightBoundary(t, k + 3) then Some(k + 3)
    else None
  }

  /** The greedy basename, giving characters back one at a time from `k` down to one. */
  function BaseFrom(t: string, i: nat, k: nat): (r: Option<nat>)
    ensures r.Some? ==> i < r.value <= |t|
  {
    if k <= i then None
    else match TryExt(t, k)
      case Some(e) => Some(e)
      case None => BaseFrom(t, i, k - 1)
  }

  /** Greedy directory components, each given back when the rest cannot match. */
  function MatchFrom(t: string, i: nat): (r: Option<nat>)
    requires i <= |t|
    ensures r.Some? ==> i < r.value <= |t|
    decreases |t| - i
  {
    var j := NameEnd(t, i);
    var deeper := if i < j < |t| && t[j] == '/' then MatchFrom(t, j + 1) else None;
    if deeper.Some? then deeper else BaseFrom(t, i, j)
  }

  /** One turn of the leading `(?:\.{1,2}/)*`. */
  function DotDir(t: string, i: nat): Option<nat> {
    if i + 2 < |t| && t[i] == '.' && t[i + 1] == '.' && t[i + 2] == '/' then Some(i + 3)
    else if i + 1 < |t| && t[i] == '.' && t[i + 1] == '/' then Some(i + 2)
    else None
  }

  /** The whole pattern at `i`: end of the match, if any. */
  function MatchAt(t: string, i: nat): (r: Option<nat>)
    requires i <= |t|
    ensures r.Some? ==> i < r.value <= |t|
    decreases |t| - i
  {
    match DotDir(t, i)
    case Some(j) => (match MatchAt(t, j) case Some(e) => Some(e) case None => MatchFrom(t, i))
    case None => MatchFrom(t, i)
  }

  /** `t[i..e]` ends in `.md` or `.mdx` after a non-empty basename stem. */
  predicate ExtAt(t: string, i: nat, e: nat)
    requires i <= e <= |t|
  {
    || (i + 4 <= e && t[e - 3] == '.' && t[e - 2] == 'm' && t[e - 1] == 'd' && t[e - 4] != '/')
    || (i + 5 <= e && t[e - 4] == '.' && t[e - 3] == 'm' && t[e - 2] == 'd' && t[e - 1] == 'x' && t[e - 5] != '/')
  }

  /** The language of the token group: path characters, no leading slash, no empty component,
      and a markdown basename. */
  predicate BodyAt(t: string, i: nat, e: nat)
    requires i <= e <= |t|
  {
    && i < e
    && t[i] != '/'
    && (forall k | i <= k < e :: IsPath(t[k]))
    && (forall k | i < k < e :: t[k - 1] == '/' ==> t[k] != '/')
    && ExtAt(t, i, e)
  }

  predicate Valid(t: string, i: nat, e: nat)
    requires i <= e <= |t|
  {
    BodyAt(t, i, e) && RightBoundary(t, e)
  }

  /** `e` is the longest valid end from `i`; no end is valid when there is none. */
  predicate Longest(t: string, i: nat, r: Option<nat>)
    requires i <= |t|
  {
    && (r.Some? ==> i <= r.value <= |t| && Valid(t, i, r.value))
    && (forall e | i <= e <= |t| && (r.Some? ==> r.value < e) :: !Valid(t, i, e))
  }

  lemma TryExtValid(t: string, i: nat, k: nat)
    requires i < k <= |t| && k <= NameEnd(t, i)
    requires TryExt(t, k).Some?
    ensures var e := TryExt(t, k).value; k + 3 <= e <= k + 4 && e <= NameEnd(t, i) && Valid(t, i, e)
  {
    assert forall n | k <= n < TryExt(t, k).value :: IsName(t[n]);
  }

  lemma ValidTryExt(t: string, i: nat, e: nat) returns (k: nat)
    requires i <= e <= |t| && Valid(t, i, e)
    ensures i < k < e && TryExt(t, k) == Some(e)
  {
    k := if t[e - 1] == 'd' then e - 3 else e - 4;
  }

  /** Giving back one character at a time stops at the last position an extension fits. */
  lemma {:induction false} BaseFromLast(t: string, i: nat, k: nat) returns (last: nat)
    ensures var r := BaseFrom(t, i, k);
            && (r.Some? ==> i < last <= k && TryExt(t, last) == r)
            && (forall n | i < n <= k && (r.Some? ==> last < n) :: TryExt(t, n) == None)
  {
    last := k;
    if i < k && TryExt(t, k).None? {
      last := BaseFromLast(t, i, k - 1);
    }
  }

  /** Within one run of name characters that is the longest end. */
  lemma BaseLongest(t: string, i: nat)
    requires i <= |t|
    ensures var r, j := BaseFrom(t, i, NameEnd(t, i)), NameEnd(t, i);
            && (r.Some? ==> i <= r.value <= j && Valid(t, i, r.value))
            && (forall e | i <= e <= j && (r.Some? ==> r.value < e) :: !Valid(t, i, e))
  {
    var r, j := BaseFrom(t, i, NameEnd(t, i)), NameEnd(t, i);
    var last := BaseFromLast(t, i, j);
    if r.Some? {
      TryExtValid(t, i, last);
    }
    forall e | i <= e <= j && (r.Some? ==> r.value < e)
      ensures !Valid(t, i, e)
    {
      if Valid(t, i, e) {
        var k := ValidTryExt(t, i, e);
        if r.Some? {
          TryExtValid(t, i, last);
          TryExtValid(t, i, k);
        }
      }
    }
  }

  /** Past the end of the first component, validity only depends on what follows its slash. */
  lemma ValidDeeper(t: string, i: nat, e: nat)
    requires i <= |t| && NameEnd(t, i) < e <= |t|
    ensures var j := NameEnd(t, i); Valid(t, i, e) <==> i < j && t[j] == '/' && Valid(t, j + 1, e)
  {
    var j := NameEnd(t, i);
    if Valid(t, i, e) {
      assert IsPath(t[i]) && IsPath(t[j]);
      assert t[j] == '/';
    }
  }

  /** Ordered choice with backtracking finds the longest member of the language. */
  lemma {:induction false} MatchFromLongest(t: string, i: nat)
    requires i <= |t|
    ensures Longest(t, i, MatchFrom(t, i))
    decreases |t| - i
  {
    hide Valid, BaseFrom, IsName, RightBoundary;
    var j := NameEnd(t, i);
    BaseLongest(t, i);
    if i < j < |t| && t[j] == '/' {
      MatchFromLongest(t, j + 1);
      if MatchFrom(t, j + 1).Some? {
        ValidDeeper(t, i, MatchFrom(t, j + 1).value);
      }
    }
    forall e | j < e <= |t| && (MatchFrom(t, i).Some? ==> MatchFrom(t, i).value < e)
      ensures !Valid(t, i, e)
    {
      ValidDeeper(t, i, e);
    }
  }

  /** The leading `(?:\.{1,2}/)*` never changes what is matched. */
  lemma {:induction false} MatchAtIsFrom(t: string, i: nat)
    requires i <= |t|
    ensures MatchAt(t, i) == MatchFrom(t, i)
    decreases |t| - i
  {
    if DotDir(t, i).Some? {
      var j := DotDir(t, i).value;
      MatchAtIsFrom(t, j);
      assert NameEnd(t, j - 1) == j - 1 && NameEnd(t, j - 2) == j - 1;
      assert NameEnd(t, i) == j - 1;
    }
  }

  lemma MatchAtLongest(t: string, i: nat)
    requires i <= |t|
    ensures Longest(t, i, MatchAt(t, i))
  {
    MatchAtIsFrom(t, i);
    MatchFromLongest(t, i);
  }

  // ---------------------------------------------------------------------------------------------
  // The language, spelled out
  // ---------------------------------------------------------------------------------------------

  predicate LetterOrDigit(c: char) { 'a' <= c <= 'z' || 'A' <= c <= 'Z' || '0' <= c <= '9' }

  /** A relative path to a markdown file: no empty component, and a basename that is more than its extension. */
  predicate MarkdownPath(w: string) {
    && w != "" && w[0] != '/' && (forall k | 0 <= k < |w| :: LetterOrDigit(w[k]) || w[k] in {'.', '_', '-', '/'})
    && (forall k | 0 < k < |w| :: !(w[k - 1] == '/' && w[k] == '/'))
    && ((EndsWith(w, ".md") && |w| > 3 && w[|w| - 4] != '/') || (EndsWith(w, ".mdx") && |w| > 4 && w[|w| - 5] != '/'))
  }

  /** What is read as a token: such a path that no letter or digit follows. */
  lemma ValidMeaning(t: string, i: nat, e: nat)
    requires i <= e <= |t|
    ensures Valid(t, i, e) <==> MarkdownPath(t[i..e]) && (e == |t| || !LetterOrDigit(t[e]))
  {
    var w := t[i..e];
    assert forall k | i <= k < e :: t[k] == w[k - i];
    assert forall k | 0 <= k < |w| :: w[k] == t[i + k];
    ExtMeaning(t, i, e);
    hide EndsWith, ExtAt;
    if Valid(t, i, e) {
      forall k | 0 < k < |w|
        ensures !(w[k - 1] == '/' && w[k] == '/')
      {
        assert t[i + k - 1] == w[k - 1];
      }
    }
    if MarkdownPath(w) {
      forall k | i < k < e && t[k - 1] == '/'
        ensures t[k] != '/'
      {
        assert w[k - i - 1] == '/';
      }
    }
  }

  lemma ExtMeaning(t: string, i: nat, e: nat)
    requires i <= e <= |t|
    ensures var w := t[i..e];
            ExtAt(t, i, e)
            <==> (EndsWith(w, ".md") && |w| > 3 && w[|w| - 4] != '/') || (EndsWith(w, ".mdx") && |w| > 4 && w[|w| - 5] != '/')
  {
    var w := t[i..e];
    if |w| >= 3 {
      assert w[|w| - 3..] == [t[e - 3], t[e - 2], t[e - 1]];
    }
    if |w| >= 4 {
      assert w[|w| - 4..] == [t[e - 4], t[e - 3], t[e - 2], t[e - 1]];
    }
    assert ".md" == ['.', 'm', 'd'] && ".mdx" == ['.', 'm', 'd', 'x'];
  }
}
