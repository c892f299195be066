/** NATS subject wildcards: the token matcher, and the string test used for grants. */
module Nats {
  import opened Text

  function Toks(s: string): (r: seq<string>)
    ensures |r| >= 1
  {
    Split(s, '.')
  }

  predicate NoInteriorGt(p: seq<string>) { forall i | 0 <= i < |p| - 1 :: p[i] != ">" }

  /** The first `n` tokens agree, `*` standing for any one token. */
  predicate Agree(p: seq<string>, s: seq<string>, n: nat)
    requires n <= |p| && n <= |s|
  {
    forall i | 0 <= i < n :: p[i] == "*" || p[i] == s[i]
  }

  /** "Subject-Based Messaging": `*` matches one token, a final `>` one or more; `>` anywhere else is malformed. */
  predicate Matches(pattern: string, subject: string) {
    var p, s := Toks(pattern), Toks(subject);
    && NoInteriorGt(p)
    && if p[|p| - 1] == ">" then |p| <= |s| && Agree(p, s, |p| - 1) else |p| == |s| && Agree(p, s, |p|)
  }

  method NatsMatches(pattern: string, subject: string) returns (r: bool)
    ensures r == Matches(pattern, subject)
  {
    var p := Toks(pattern);
    for i := 0 to |p|
      invariant forall k | 0 <= k < i && k < |p| - 1 :: p[k] != ">"
    {
      if p[i] == ">" && i != |p| - 1 {
        return false;
      }
    }
    var s := Toks(subject);
    var pi, si := 0, 0;
    while pi < |p| && si < |s|
      invariant pi == si <= |p| && si <= |s| && Agree(p, s, pi)
      invariant forall k | 0 <= k < pi :: p[k] != ">"
    {
      if p[pi] == ">" {
        return si < |s|;
      }
      if p[pi] == "*" {
        pi, si := pi + 1, si + 1;
      } else if p[pi] == s[si] {
        pi, si := pi + 1, si + 1;
      } else {
        return false;
      }
    }
    return pi == |p| && si == |s|;
  }

  /** `_subject_matches_any`. */
  predicate MatchesAny(token: string, subjects: set<string>) {
    token in subjects || exists pat | pat in subjects :: ('*' in pat || '>' in pat) && Matches(pat, token)
  }

  /** A pattern without wildcard characters matches only itself, so looking only at patterns that have
      some loses nothing. */
  lemma MatchesAnyMeaning(token: string, subjects: set<string>)
    ensures MatchesAny(token, subjects) <==> token in subjects || exists pat | pat in subjects :: Matches(pat, token)
  {
    forall pat | pat in subjects && Matches(pat, token) && '*' !in pat && '>' !in pat
      ensures pat == token
    {
      PlainMatchesItself(pat, token);
    }
  }

  lemma PlainMatchesItself(pat: string, token: string)
    requires Matches(pat, token) && '*' !in pat && '>' !in pat
    ensures pat == token
  {
    var p, s := Toks(pat), Toks(token);
    SplitParts(pat, '.');
    forall i | 0 <= i < |p|
      ensures p[i] != "*" && p[i] != ">"
    {
      assert p[i] in p;
      assert '*' !in p[i] && '>' !in p[i];
      assert "*"[0] == '*' && ">"[0] == '>';
    }
    assert p == s;
    SplitInjective(pat, token, '.');
  }

  // ---------------------------------------------------------------------------------------------
  // The string test
  // ---------------------------------------------------------------------------------------------

  /** One turn of the loop of `subject_covered`. */
  predicate Covers(grant: string, subject: string) {
    || grant == subject
    || grant == ">"
    || (EndsWith(grant, ".>") && StartsWith(subject, grant[..|grant| - 1]))
    || (EndsWith(grant, ".*") && StartsWith(subject, grant[..|grant| - 1]) && '.' !in subject[|grant| - 1..])
  }

  method SubjectCovered(subject: string, grants: seq<string>) returns (r: bool)
    ensures r <==> exists g | g in grants :: Covers(g, subject)
  {
    for i := 0 to |grants|
      invariant forall k | 0 <= k < i :: !Covers(grants[k], subject)
    {
      var grant := grants[i];
      assert grant in grants;
      if grant == subject || grant == ">" {
        return true;
      }
      if EndsWith(grant, ".>") {
        var prefix := grant[..|grant| - 1];
        if StartsWith(subject, prefix) {
          return true;
        }
      }
      if EndsWith(grant, ".*") {
        var prefix := grant[..|grant| - 1];
        if StartsWith(subject, prefix) && '.' !in subject[|prefix|..] {
          return true;
        }
      }
    }
    return false;
  }

  /** A grant ending in `.w` for a one-character token `w`, and a subject with the same prefix. */
  lemma SuffixToks(grant: string, w: char, subject: string)
    requires w != '.' && EndsWith(grant, ['.', w])
    ensures Toks(grant) == Toks(grant[..|grant| - 2]) + [[w]]
    ensures StartsWith(subject, grant[..|grant| - 1])
            ==> Toks(subject) == Toks(grant[..|grant| - 2]) + Toks(subject[|grant| - 1..])
  {
    var x := grant[..|grant| - 2];
    assert grant == x + ['.'] + [w] by { assert grant[|grant| - 2..] == ['.', w]; }
    SplitConcat(x, [w], '.');
    SplitNone([w], '.');
    if StartsWith(subject, grant[..|grant| - 1]) {
      assert grant[..|grant| - 1] == x + ['.'];
      assert subject == x + ['.'] + subject[|grant| - 1..];
      SplitConcat(x, subject[|grant| - 1..], '.');
    }
  }

  /** For a grant with no interior `>` token, being covered implies being matched. */
  lemma CoveredImpliesMatched(grant: string, subject: string)
    requires NoInteriorGt(Toks(grant)) && Covers(grant, subject)
    ensures grant == subject || Matches(grant, subject)
  {
    if grant == ">" {
      SplitNone(">", '.');
    } else if EndsWith(grant, ".>") && StartsWith(subject, grant[..|grant| - 1]) {
      SuffixToks(grant, '>', subject);
    } else if EndsWith(grant, ".*") && StartsWith(subject, grant[..|grant| - 1]) && '.' !in subject[|grant| - 1..] {
      SuffixToks(grant, '*', subject);
      SplitNone(subject[|grant| - 1..], '.');
    }
  }

  predicate Literal(tok: string) { tok != "*" && tok != ">" }

  predicate AllLiteral(toks: seq<string>) { forall t | t in toks :: Literal(t) }

  /** `>`, a literal subject, or one or more literal tokens and then a final `.>` or `.*`. */
  predicate SimpleGrant(grant: string) {
    || grant == ">"
    || AllLiteral(Toks(grant))
    || ((EndsWith(grant, ".>") || EndsWith(grant, ".*")) && AllLiteral(Toks(grant[..|grant| - 2])))
  }

  lemma LiteralToks(grant: string, subject: string)
    requires AllLiteral(Toks(grant))
    ensures Matches(grant, subject) <==> grant == subject
  {
    var p, s := Toks(grant), Toks(subject);
    assert forall i | 0 <= i < |p| :: p[i] in p;
    if Matches(grant, subject) {
      assert p == s;
      SplitInjective(grant, subject, '.');
    }
  }

  /** A grant `x.>` or `x.*` with literal `x` matches exactly the subjects that start with `x.`, and for
      `*` have a single token after it. */
  lemma SuffixMatches(grant: string, w: char, subject: string)
    requires (w == '>' || w == '*') && EndsWith(grant, ['.', w])
    requires AllLiteral(Toks(grant[..|grant| - 2])) && Matches(grant, subject)
    ensures StartsWith(subject, grant[..|grant| - 1])
    ensures w == '*' ==> '.' !in subject[|grant| - 1..]
  {
    var x := grant[..|grant| - 2];
    var xs, s := Toks(x), Toks(subject);
    var n := |xs|;
    SuffixToks(grant, w, subject);
    assert forall i | 0 <= i < n :: xs[i] in xs && Toks(grant)[i] == xs[i];
    assert s[..n] == xs && n < |s|;
    JoinSplit(x, '.');
    DropLast(grant, w);
    hide Matches, AllLiteral, EndsWith;
    CutAt(subject, n);
    if w == '*' {
      assert s[n..] == [s[n]];
      SplitParts(subject, '.');
      assert s[n] in s;
    }
  }

  /** A subject cut between two of its tokens. */
  lemma CutAt(s: string, n: nat)
    requires 0 < n < |Toks(s)|
    ensures s == Join(".", Toks(s)[..n]) + "." + Join(".", Toks(s)[n..])
    ensures StartsWith(s, Join(".", Toks(s)[..n]) + ".")
    ensures s[|Join(".", Toks(s)[..n])| + 1..] == Join(".", Toks(s)[n..])
    ensures Toks(Join(".", Toks(s)[..n])) == Toks(s)[..n]
  {
    var t := Toks(s);
    JoinSplit(s, '.');
    JoinConcat(".", t[..n], t[n..]);
    assert t == t[..n] + t[n..];
    SplitParts(s, '.');
    hide Split;
    assert forall x | x in t[..n] :: x in t;
    SplitJoin(t[..n], '.');
  }

  lemma DropLast(grant: string, w: char)
    requires EndsWith(grant, ['.', w])
    ensures grant[..|grant| - 1] == grant[..|grant| - 2] + "."
  {
    assert grant[|grant| - 2..][0] == '.';
  }

  /** On simple grants the string test and the token matcher are the same. */
  lemma CoveredIsMatched(grant: string, subject: string)
    requires SimpleGrant(grant)
    ensures Covers(grant, subject) <==> grant == subject || Matches(grant, subject)
  {
    SimpleNoInterior(grant);
    if Covers(grant, subject) {
      CoveredImpliesMatched(grant, subject);
    } else if AllLiteral(Toks(grant)) {
      LiteralToks(grant, subject);
    } else if Matches(grant, subject) {
      SuffixMatches(grant, if EndsWith(grant, ".>") then '>' else '*', subject);
    }
  }

  lemma SimpleNoInterior(grant: string)
    requires SimpleGrant(grant)
    ensures NoInteriorGt(Toks(grant))
  {
    var p := Toks(grant);
    assert forall i | 0 <= i < |p| :: p[i] in p;
    if grant == ">" {
      SplitNone(">", '.');
    } else if !AllLiteral(p) {
      SuffixToks(grant, if EndsWith(grant, ".>") then '>' else '*', grant);
      var xs := Toks(grant[..|grant| - 2]);
      assert forall i | 0 <= i < |xs| :: xs[i] in xs && p[i] == xs[i];
    }
  }

  /** The two oracles of the repository on whole grant lists. */
  lemma CoverageAgrees(subject: string, grants: seq<string>)
    ensures (forall g | g in grants :: NoInteriorGt(Toks(g))) && (exists g | g in grants :: Covers(g, subject))
            ==> MatchesAny(subject, set g | g in grants)
    ensures (forall g | g in grants :: SimpleGrant(g))
            ==> ((exists g | g in grants :: Covers(g, subject)) <==> MatchesAny(subject, set g | g in grants))
  {
    MatchesAnyMeaning(subject, set g | g in grants);
    forall g | g in grants
      ensures NoInteriorGt(Toks(g)) && Covers(g, subject) ==> g == subject || Matches(g, subject)
      ensures SimpleGrant(g) ==> (Covers(g, subject) <==> g == subject || Matches(g, subject))
    {
      if NoInteriorGt(Toks(g)) && Covers(g, subject) {
        CoveredImpliesMatched(g, subject);
      }
      if SimpleGrant(g) {
        CoveredIsMatched(g, subject);
      }
    }
    assert forall g | g in grants && g == subject :: Covers(g, subject);
  }

  /** Outside those grants the two disagree: an inner `*` is matched but not covered. */
  lemma InnerStarMatchedNotCovered(a: string, b: string, c: string)
    requires '.' !in a && '.' !in b && '.' !in c && a != ">" && b != "*" && c != "*" && c != ">"
    ensures var grant, subject := a + "." + "*" + "." + c, a + "." + b + "." + c;
            Matches(grant, subject) && !Covers(grant, subject)
  {
    var grant, subject := a + "." + "*" + "." + c, a + "." + b + "." + c;
    Dots3(a, "*", c);
    Dots3(a, b, c);
    assert Toks(grant)[1] != Toks(subject)[1];
    if EndsWith(grant, ".>") {
      SuffixToks(grant, '>', subject);
    }
    if EndsWith(grant, ".*") {
      SuffixToks(grant, '*', subject);
    }
    assert grant != ">" by { SplitNone(">", '.'); }
  }

  /** And an interior `>` token is covered (by its own prefix, say) but matches nothing. */
  lemma InteriorGtCoveredNotMatched(x: string, b: string)
    requires !NoInteriorGt(Toks(x + ".>"))
    ensures Covers(x + ".>", x + "." + b) && !Matches(x + ".>", x + "." + b)
  {
    var grant, subject := x + ".>", x + "." + b;
    assert grant[..|grant| - 1] == x + ".";
    assert grant[|grant| - 2..] == ".>";
  }

  lemma Dots3(a: string, b: string, c: string)
    requires '.' !in a && '.' !in b && '.' !in c
    ensures Toks(a + "." + b + "." + c) == [a, b, c]
  {
    SplitNone(a, '.');
    SplitNone(b, '.');
    SplitNone(c, '.');
    SplitConcat(a, b, '.');
    SplitConcat(a + "." + b, c, '.');
  }

  // ---------------------------------------------------------------------------------------------
  // Exactly when the two tests agree
  // ---------------------------------------------------------------------------------------------

  ghost predicate AgreeEverywhere(grant: string) {
    forall subject :: Covers(grant, subject) <==> grant == subject || Matches(grant, subject)
  }

  /** Grants of the documented shapes, and grants that neither test lets cover anything but themselves. */
  predicate Sound(grant: string) {
    SimpleGrant(grant) || (!NoInteriorGt(Toks(grant)) && !EndsWith(grant, ".>") && !EndsWith(grant, ".*"))
  }

  lemma SoundAgrees(grant: string)
    requires Sound(grant)
    ensures AgreeEverywhere(grant)
  {
    forall subject
      ensures Covers(grant, subject) <==> grant == subject || Matches(grant, subject)
    {
      if SimpleGrant(grant) {
        CoveredIsMatched(grant, subject);
      } else {
        assert grant != ">" by { SplitNone(">", '.'); }
      }
    }
  }

  /** An interior `>` before a final `.>` or `.*`: the prefix with one more token is covered, and nothing matches. */
  lemma InteriorDiffers(grant: string)
    requires !NoInteriorGt(Toks(grant)) && (EndsWith(grant, ".>") || EndsWith(grant, ".*"))
    ensures !AgreeEverywhere(grant)
  {
    var n := |grant| - 1;
    var w := if grant[n] == 'b' then "c" else "b";
    var subject := grant[..n] + w;
    assert subject[..n] == grant[..n] && subject[n..] == w;
    assert subject[n] != grant[n];
    assert Covers(grant, subject) && grant != subject && !Matches(grant, subject);
  }

  lemma LoneStarDiffers()
    ensures !AgreeEverywhere("*")
  {
    SplitNone("*", '.');
    SplitNone("b", '.');
    assert "*" != "b" && "*"[0] == '*';
    assert Matches("*", "b") && !Covers("*", "b");
  }

  /** The grant with the star at `i` filled in. */
  function Filled(grant: string, i: nat): string
    requires i < |Toks(grant)|
  {
    Join(".", Toks(grant)[i := "b"])
  }

  lemma FilledToks(grant: string, i: nat)
    requires i < |Toks(grant)|
    ensures Toks(Filled(grant, i)) == Toks(grant)[i := "b"]
  {
    var p := Toks(grant);
    SplitParts(grant, '.');
    forall t | t in p[i := "b"]
      ensures '.' !in t
    {
      var k :| 0 <= k < |p| && p[i := "b"][k] == t;
      assert k != i ==> t == p[k] && p[k] in p;
    }
    SplitJoin(p[i := "b"], '.');
  }

  lemma FilledMatches(grant: string, i: nat)
    requires NoInteriorGt(Toks(grant)) && i < |Toks(grant)| - 1 && Toks(grant)[i] == "*"
    ensures Matches(grant, Filled(grant, i))
  {
    FilledToks(grant, i);
  }

  lemma FilledNotCovered(grant: string, i: nat, w: char)
    requires i < |Toks(grant)| - 1 && Toks(grant)[i] == "*" && w != '.' && EndsWith(grant, ['.', w])
    ensures !StartsWith(Filled(grant, i), grant[..|grant| - 1])
  {
    FilledToks(grant, i);
    SuffixToks(grant, w, Filled(grant, i));
    var x := Toks(grant[..|grant| - 2]);
    assert Toks(grant)[i] == x[i];
    assert Toks(Filled(grant, i))[i] == "b";
    assert "b"[0] != "*"[0];
  }

  /** A star before the last token: the grant with it filled in is matched and not covered. */
  lemma InnerStarDiffers(grant: string, i: nat)
    requires NoInteriorGt(Toks(grant)) && i < |Toks(grant)| - 1 && Toks(grant)[i] == "*"
    ensures !AgreeEverywhere(grant)
  {
    var subject := Filled(grant, i);
    FilledMatches(grant, i);
    FilledToks(grant, i);
    assert Toks(subject)[i] == "b" && "b"[0] != "*"[0];
    assert grant != ">" by { SplitNone(">", '.'); }
    if EndsWith(grant, ".>") {
      FilledNotCovered(grant, i, '>');
    }
    if EndsWith(grant, ".*") {
      FilledNotCovered(grant, i, '*');
    }
    hide Matches, Filled;
    assert Matches(grant, subject) && !Covers(grant, subject);
  }

  /** A grant outside the documented shapes, without an interior `>`, is a lone star or has a star before its end. */
  lemma StarSomewhere(grant: string) returns (i: nat)
    requires NoInteriorGt(Toks(grant)) && !SimpleGrant(grant) && grant != "*"
    ensures i < |Toks(grant)| - 1 && Toks(grant)[i] == "*"
  {
    var p := Toks(grant);
    var n := |p| - 1;
    if forall k | 0 <= k < n :: p[k] != "*" {
      assert forall k | 0 <= k < n :: Literal(p[k]);
      LastDecides(grant);
    }
    i :| 0 <= i < n && p[i] == "*";
  }

  lemma LastDecides(grant: string)
    requires var p := Toks(grant); forall k | 0 <= k < |p| - 1 :: Literal(p[k])
    ensures SimpleGrant(grant) || grant == "*"
  {
    var p := Toks(grant);
    var n := |p| - 1;
    hide Split;
    if Literal(p[n]) {
      assert forall t | t in p :: Literal(t);
    } else if n == 0 {
      JoinSplit(grant, '.');
      assert Join(".", p) == p[0];
    } else {
      LastWild(grant);
    }
  }

  lemma LastWild(grant: string)
    requires var p := Toks(grant);
             |p| > 1 && !Literal(p[|p| - 1]) && forall k | 0 <= k < |p| - 1 :: Literal(p[k])
    ensures SimpleGrant(grant)
  {
    var p := Toks(grant);
    var n := |p| - 1;
    CutAt(grant, n);
    hide Split, Join, StartsWith, EndsWith;
    assert p[n..] == [p[n]];
    assert Join(".", [p[n]]) == p[n] by { JoinOne(p[n]); }
    LastOne(grant, Join(".", p[..n]), p[n]);
    assert forall t | t in p[..n] :: Literal(t);
    assert AllLiteral(Toks(grant[..|grant| - 2]));
    assert "." + "*" == ".*" && "." + ">" == ".>";
  }

  lemma JoinOne(t: string)
    ensures Join(".", [t]) == t
  {
  }

  lemma LastOne(grant: string, x: string, last: string)
    requires grant == x + "." + last && |last| == 1
    ensures grant[..|grant| - 2] == x && EndsWith(grant, "." + last)
  {
    assert grant[|grant| - 2..] == "." + last;
  }

  /** The string test and the matcher agree on every subject exactly for the documented shapes and for grants with an
      interior `>` that end in neither `.>` nor `.*`, which cover and match nothing else than themselves. */
  lemma AgreeExactly(grant: string)
    ensures AgreeEverywhere(grant) <==> Sound(grant)
  {
    hide AgreeEverywhere, SimpleGrant, EndsWith;
    if Sound(grant) {
      SoundAgrees(grant);
    } else if !NoInteriorGt(Toks(grant)) {
      InteriorDiffers(grant);
    } else if grant == "*" {
      LoneStarDiffers();
    } else {
      var i := StarSomewhere(grant);
      InnerStarDiffers(grant, i);
    }
  }
}
