/** The regular expressions of the auth.conf parser, as chains of literals and greedy character-class
    runs. In every pattern used, what follows a run cannot start with a character of its class, so
    greedy matching never has to back off. */
module Patterns {
  import opened Text

  datatype Class = Spaces | NonSpaces | WordChars | Except(c: char)

  predicate IsWord(c: char) { IsAlnum(c) || c == '_' }

  predicate InClass(cl: Class, c: char) {
    match cl
    case Spaces => IsSpace(c)
    case NonSpaces => !IsSpace(c)
    case WordChars => IsWord(c)
    case Except(x) => c != x
  }

  /** `Run` is `[...]*` or, with `min` 1, `[...]+`; `ToLast(c)` is a greedy `(.*)` up to the last `c`;
      `Either` is `(a|b)`. `keep` marks a capture. */
  datatype Pat =
    | Done
    | Lit(text: string, next: Pat)
    | Run(cl: Class, min: nat, keep: bool, next: Pat)
    | ToLast(c: char, next: Pat)
    | Either(a: string, b: string, next: Pat)

  datatype Hit = Hit(rest: string, caps: seq<string>)

  function RunLen(cl: Class, s: string): (n: nat)
    ensures n <= |s| && (forall k | 0 <= k < n :: InClass(cl, s[k])) && (n < |s| ==> !InClass(cl, s[n]))
  {
    if s != "" && InClass(cl, s[0]) then 1 + RunLen(cl, s[1..]) else 0
  }

  function LastIndex(s: string, c: char): (n: nat)
    requires c in s
    ensures n < |s| && s[n] == c && c !in s[n + 1..]
    decreases |s|
  {
    var k := |s| - 1;
    if s[k] == c then k
    else
      var n := LastIndex(s[..k], c);
      assert s[n + 1..] == s[..k][n + 1..] + [s[k]];
      n
  }

  function Keep(cap: string, h: Option<Hit>): Option<Hit> {
    if h.Some? then Some(Hit(h.value.rest, [cap] + h.value.caps)) else None
  }

  /** The pattern anchored at the start of `s`. */
  function Match(p: Pat, s: string): (h: Option<Hit>)
    ensures h.Some? ==> |h.value.rest| <= |s|
    decreases p
  {
    match p
    case Done => Some(Hit(s, []))
    case Lit(t, next) => if StartsWith(s, t) then Match(next, s[|t|..]) else None
    case Run(cl, min, keep, next) =>
      var n := RunLen(cl, s);
      if n < min then None else if keep then Keep(s[..n], Match(next, s[n..])) else Match(next, s[n..])
    case ToLast(c, next) => if c in s then Keep(s[..LastIndex(s, c)], Match(next, s[LastIndex(s, c) + 1..])) else None
    case Either(a, b, next) =>
      if StartsWith(s, a) then Keep(a, Match(next, s[|a|..]))
      else if StartsWith(s, b) then Keep(b, Match(next, s[|b|..]))
      else None
  }

  /** `re.search`. */
  function Search(p: Pat, s: string): Option<Hit>
    decreases |s|
  {
    if Match(p, s).Some? then Match(p, s) else if s == "" then None else Search(p, s[1..])
  }

  /** The captures of `re.finditer`. */
  function FindAll(p: Pat, s: string): seq<seq<string>>
    decreases |s|
  {
    if s == "" then []
    else
      var h := Match(p, s);
      if h.Some? && |h.value.rest| < |s| then [h.value.caps] + FindAll(p, h.value.rest) else FindAll(p, s[1..])
  }

  // ---------------------------------------------------------------------------------------------
  // One step of a match
  // ---------------------------------------------------------------------------------------------

  lemma MatchLit(t: string, next: Pat, s: string)
    ensures Match(Lit(t, next), t + s) == Match(next, s)
  {
    assert (t + s)[..|t|] == t && (t + s)[|t|..] == s;
  }

  predicate Stops(cl: Class, s: string) { s == "" || !InClass(cl, s[0]) }

  predicate All(cl: Class, w: string) { forall k | 0 <= k < |w| :: InClass(cl, w[k]) }

  lemma RunLenIs(cl: Class, w: string, s: string)
    requires All(cl, w) && Stops(cl, s)
    ensures RunLen(cl, w + s) == |w|
  {
    var n := RunLen(cl, w + s);
    assert forall k | 0 <= k < |w| :: (w + s)[k] == w[k];
    assert s != "" ==> (w + s)[|w|] == s[0];
    assert n == |w|;
  }

  lemma MatchRun(cl: Class, min: nat, keep: bool, next: Pat, w: string, s: string)
    requires All(cl, w) && Stops(cl, s) && min <= |w|
    ensures Match(Run(cl, min, keep, next), w + s) == if keep then Keep(w, Match(next, s)) else Match(next, s)
  {
    RunLenIs(cl, w, s);
    assert (w + s)[..|w|] == w && (w + s)[|w|..] == s;
  }

  lemma MatchToLast(c: char, next: Pat, w: string, s: string)
    requires c !in s
    ensures Match(ToLast(c, next), w + ([c] + s)) == Keep(w, Match(next, s))
  {
    var t := w + ([c] + s);
    assert t[|w|] == c && t[|w| + 1..] == s && t[..|w|] == w;
    var n := LastIndex(t, c);
    assert forall k | n < k < |t| :: t[k] == t[n + 1..][k - n - 1];
    assert forall k | |w| < k < |t| :: t[k] == s[k - |w| - 1];
    assert n == |w|;
  }

  // ---------------------------------------------------------------------------------------------
  // Skipping text that cannot match
  // ---------------------------------------------------------------------------------------------

  /** A pattern that starts with a literal cannot start where the literal's first character is not. */
  lemma {:induction false} SkipChars(t: string, next: Pat, junk: string, s: string)
    requires t != "" && t[0] !in junk
    ensures Search(Lit(t, next), junk + s) == Search(Lit(t, next), s)
  {
    if junk == "" {
      assert junk + s == s;
    } else {
      ConsConcat(junk, s);
      SkipChars(t, next, junk[1..], s);
    }
  }

  /** `key\s*:` and something after it. */
  function KeyPat(key: string, next: Pat): Pat { Lit(key, Run(Spaces, 0, false, Lit(":", next))) }

  /** A key pattern matches before the first colon of a text only if the key itself is what stands there. */
  lemma KeyAt(key: string, next: Pat, seg: string, s: string)
    requires ':' !in key && ':' !in seg && seg != "" && !IsSpace(seg[|seg| - 1]) && seg != key
    ensures Match(KeyPat(key, next), seg + ":" + s) == None
  {
    var t := seg + ":" + s;
    if StartsWith(t, key) {
      var u := t[|key|..];
      assert t[|seg|] == ':';
      assert t[..|key|] == key;
      assert |key| <= |seg| by {
        assert forall k | 0 <= k < |key| :: key[k] == t[k] && key[k] in key;
      }
      assert seg[..|key|] == t[..|key|];
      var n := RunLen(Spaces, u);
      var last := |seg| - |key|;
      assert u[last] == ':' && u[last - 1] == seg[|seg| - 1];
      assert n < last;
      assert u[n] == seg[|key| + n];
      assert seg[|key| + n] in seg;
      NotStart(u[n..], ":");
      assert Match(Lit(":", next), u[n..]) == None;
      assert Match(Run(Spaces, 0, false, Lit(":", next)), u) == None;
    }
  }

  lemma NotStart(u: string, t: string)
    requires u != "" && t != "" && u[0] != t[0]
    ensures !StartsWith(u, t)
  {
    assert |t| <= |u| ==> u[..|t|][0] == u[0];
  }

  lemma MatchLitMiss(t: string, next: Pat, u: string)
    requires u != "" && t != "" && u[0] != t[0]
    ensures Match(Lit(t, next), u) == None
  {
    NotStart(u, t);
  }

  /** No match starts in a segment before a colon that does not end with the key. */
  lemma {:induction false} SegSkip(key: string, next: Pat, seg: string, s: string)
    requires key != "" && ':' !in key && ':' !in seg
    requires seg != "" ==> !IsSpace(seg[|seg| - 1]) && !EndsWith(seg, key)
    ensures Search(KeyPat(key, next), seg + ":" + s) == Search(KeyPat(key, next), s)
    decreases |seg|
  {
    if seg == "" {
      assert key[0] != ':' by { assert key[0] in key; }
      assert ":"[0] == ':' && |":"| == 1;
      SkipChars(key, Run(Spaces, 0, false, Lit(":", next)), ":", s);
      assert "" + ":" + s == ":" + s;
    } else {
      assert seg[|seg| - |seg|..] == seg;
      KeyAt(key, next, seg, s);
      assert (seg + ":" + s)[1..] == seg[1..] + ":" + s;
      ShorterSeg(key, seg);
      SegSkip(key, next, seg[1..], s);
    }
  }

  lemma ShorterSeg(key: string, seg: string)
    requires seg != "" && !EndsWith(seg, key) && ':' !in seg && !IsSpace(seg[|seg| - 1])
    ensures !EndsWith(seg[1..], key) && ':' !in seg[1..]
    ensures seg[1..] != "" ==> !IsSpace(seg[1..][|seg[1..]| - 1])
  {
    assert |key| < |seg| ==> seg[1..][|seg| - 1 - |key|..] == seg[|seg| - |key|..];
  }

  /** The first match is at a key that stands right before the first colon. */
  lemma {:induction false} SegHit(key: string, next: Pat, pre: string, s: string)
    requires key != "" && ':' !in key && ':' !in pre && !IsSpace(key[|key| - 1])
    requires Match(KeyPat(key, next), key + ":" + s).Some?
    ensures Search(KeyPat(key, next), pre + key + ":" + s) == Match(KeyPat(key, next), key + ":" + s)
    decreases |pre|
  {
    hide Search, Match, KeyPat, IsSpace;
    if pre == "" {
      assert pre + key + ":" + s == key + ":" + s;
      SearchHere(KeyPat(key, next), key + ":" + s);
    } else {
      NotAtPrefix(key, next, pre, s);
      SearchMiss(KeyPat(key, next), pre + key + ":" + s);
      assert (pre + key + ":" + s)[1..] == pre[1..] + key + ":" + s;
      SegHit(key, next, pre[1..], s);
    }
  }

  lemma NotAtPrefix(key: string, next: Pat, pre: string, s: string)
    requires key != "" && ':' !in key && ':' !in pre && !IsSpace(key[|key| - 1]) && pre != ""
    ensures Match(KeyPat(key, next), pre + key + ":" + s) == None
  {
    hide Match, KeyPat, IsSpace;
    assert (pre + key)[|pre + key| - 1] == key[|key| - 1];
    KeyAt(key, next, pre + key, s);
  }

  lemma SearchHere(p: Pat, s: string)
    requires Match(p, s).Some?
    ensures Search(p, s) == Match(p, s)
  {
  }

  lemma SearchMiss(p: Pat, s: string)
    requires s != "" && Match(p, s) == None
    ensures Search(p, s) == Search(p, s[1..])
  {
    hide Match;
  }

  // ---------------------------------------------------------------------------------------------
  // `(\w+)\s*:...`, found over and over
  // ---------------------------------------------------------------------------------------------

  /** A word, then whatever `next` asks for. */
  function WordPat(next: Pat): Pat { Run(WordChars, 1, true, next) }

  lemma {:induction false} SkipNonWord(next: Pat, junk: string, s: string)
    requires forall k | 0 <= k < |junk| :: !IsWord(junk[k])
    ensures FindAll(WordPat(next), junk + s) == FindAll(WordPat(next), s)
  {
    if junk == "" {
      assert junk + s == s;
    } else {
      ConsConcat(junk, s);
      assert RunLen(WordChars, junk + s) == 0;
      SkipNonWord(next, junk[1..], s);
    }
  }

  lemma WordHit(next: Pat, w: string, s: string)
    requires w != "" && All(WordChars, w) && Stops(WordChars, s) && Match(next, s).Some?
    ensures FindAll(WordPat(next), w + s) == [[w] + Match(next, s).value.caps] + FindAll(WordPat(next), Match(next, s).value.rest)
  {
    MatchRun(WordChars, 1, true, next, w, s);
  }

  /** A word that is not followed as the pattern asks is skipped whole. */
  lemma {:induction false} WordMiss(next: Pat, w: string, s: string)
    requires All(WordChars, w) && Stops(WordChars, s) && Match(next, s).None?
    ensures FindAll(WordPat(next), w + s) == FindAll(WordPat(next), s)
    decreases |w|
  {
    if w == "" {
      assert w + s == s;
    } else {
      MatchRun(WordChars, 1, true, next, w, s);
      ConsConcat(w, s);
      WordMiss(next, w[1..], s);
    }
  }

  /** Does the pattern have to consume the character `c` as a literal? */
  predicate Needs(p: Pat, c: char) {
    match p
    case Done => false
    case Lit(t, next) => c in t || Needs(next, c)
    case Run(_, _, _, next) => Needs(next, c)
    case ToLast(_, next) => Needs(next, c)
    case Either(_, _, next) => Needs(next, c)
  }

  lemma {:induction false} NeedsMissing(p: Pat, c: char, s: string)
    requires Needs(p, c) && c !in s
    ensures Match(p, s) == None
    decreases p
  {
    match p
    case Lit(t, next) =>
      if StartsWith(s, t) {
        assert forall x | x in t :: x in s by { assert forall k | 0 <= k < |t| :: t[k] == s[..|t|][k] == s[k]; }
        NeedsMissing(next, c, s[|t|..]);
      }
    case Run(cl, _, _, next) => NeedsMissing(next, c, s[RunLen(cl, s)..]);
    case ToLast(d, next) =>
      if d in s {
        NeedsMissing(next, c, s[LastIndex(s, d) + 1..]);
      }
    case Either(a, b, next) =>
      if StartsWith(s, a) {
        NeedsMissing(next, c, s[|a|..]);
      } else if StartsWith(s, b) {
        NeedsMissing(next, c, s[|b|..]);
      }
  }

  lemma {:induction false} FindNone(p: Pat, c: char, s: string)
    requires Needs(p, c) && c !in s
    ensures FindAll(p, s) == []
    decreases |s|
  {
    if s != "" {
      NeedsMissing(p, c, s);
      FindNone(p, c, s[1..]);
    }
  }
}
