/** Replacing path tokens in a text. The text is cut into maximal runs of path characters, each of
    which holds at most one token; an edit of tokens is stable under tokenising again. */
module TokenEdit {
  import opened Text
  import opened PathTokens

  function GapEnd(t: string, i: nat): (g: nat)
    requires i <= |t|
    ensures i <= g <= |t| && (forall k | i <= k < g :: !IsPath(t[k])) && (g < |t| ==> IsPath(t[g]))
    decreases |t| - i
  {
    if i < |t| && !IsPath(t[i]) then GapEnd(t, i + 1) else i
  }

  function RunEnd(t: string, i: nat): (r: nat)
    requires i <= |t|
    ensures i <= r <= |t| && (forall k | i <= k < r :: IsPath(t[k])) && (r < |t| ==> !IsPath(t[r]))
    decreases |t| - i
  {
    if i < |t| && IsPath(t[i]) then RunEnd(t, i + 1) else i
  }

  /** First cut of a text: a gap without path characters, a maximal run of them, and the rest. */
  datatype Cut = Cut(gap: string, run: string, tail: string)

  predicate WellCut(c: Cut) {
    && (forall k | 0 <= k < |c.gap| :: !IsPath(c.gap[k]))
    && (forall k | 0 <= k < |c.run| :: IsPath(c.run[k]))
    && (c.tail == "" || (c.run != "" && !IsPath(c.tail[0])))
  }

  function CutOf(t: string): (c: Cut)
    ensures WellCut(c) && c.gap + c.run + c.tail == t
    ensures t != "" ==> |c.tail| < |t|
  {
    var g := GapEnd(t, 0);
    var r := RunEnd(t, g);
    Cut(t[..g], t[g..r], t[r..])
  }

  lemma CutUnique(c: Cut)
    requires WellCut(c)
    ensures CutOf(c.gap + c.run + c.tail) == c
  {
    var t := c.gap + c.run + c.tail;
    var m := |c.gap|;
    var n := m + |c.run|;
    var g := GapEnd(t, 0);
    assert forall k | 0 <= k < m :: t[k] == c.gap[k];
    assert forall k | m <= k < n :: t[k] == c.run[k - m];
    assert c.run != "" ==> IsPath(t[m]);
    assert g == m;
    assert c.tail != "" ==> t[n] == c.tail[0];
    assert RunEnd(t, m) == n;
  }

  /** Replacing tokens: `m` says what a token becomes; a token outside it is left alone. */
  function EditToken(tok: string, m: map<string, string>): string {
    if tok in m then m[tok] else tok
  }

  function EditRun(run: string, m: map<string, string>): string {
    match MatchAt(run, 0)
    case Some(e) => EditToken(run[..e], m) + run[e..]
    case None => run
  }

  function Edit(t: string, m: map<string, string>): string
    decreases |t|
  {
    if t == "" then "" else var c := CutOf(t); c.gap + EditRun(c.run, m) + Edit(c.tail, m)
  }

  function RunTokens(run: string): seq<string> {
    match MatchAt(run, 0)
    case Some(e) => [run[..e]]
    case None => []
  }

  /** The tokens of a text, left to right. */
  function Tokens(t: string): seq<string>
    decreases |t|
  {
    if t == "" then [] else var c := CutOf(t); RunTokens(c.run) + Tokens(c.tail)
  }

  predicate IsToken(q: string) { BodyAt(q, 0, |q|) }

  /** A replacement that cannot merge with what follows it: a token itself, or something no markdown
      basename can end in (`..` and the like). */
  predicate Fits(q: string) {
    && q != "" && q[|q| - 1] != '/'
    && (forall k | 0 <= k < |q| :: IsPath(q[k]))
    && (IsToken(q) || 'm' !in q)
  }

  predicate Keeps(m: map<string, string>) {
    forall tok | tok in m && IsToken(tok) :: Fits(m[tok])
  }

  lemma TokensAreTokens(t: string)
    ensures forall tok | tok in Tokens(t) :: IsToken(tok)
    decreases |t|
  {
    if t != "" {
      var c := CutOf(t);
      TokensAreTokens(c.tail);
      RunToken(c.run);
    }
  }

  lemma RunToken(run: string)
    ensures forall tok | tok in RunTokens(run) :: IsToken(tok)
  {
    MatchAtLongest(run, 0);
    if MatchAt(run, 0).Some? {
      BodySlice(run, MatchAt(run, 0).value);
    }
  }

  lemma BodySlice(t: string, e: nat)
    requires e <= |t|
    ensures BodyAt(t, 0, e) <==> IsToken(t[..e])
  {
    var p := t[..e];
    assert forall k | 0 <= k < e :: p[k] == t[k];
  }

  lemma LongestUnique(t: string, r: Option<nat>)
    requires Longest(t, 0, r)
    ensures MatchAt(t, 0) == r
  {
    MatchAtLongest(t, 0);
  }

  /** No token can end past a replacement: one that did would have been longer in the old run too. */
  lemma NoEndBeyond(run: string, e: nat, q: string, d: nat)
    requires forall k | 0 <= k < |run| :: IsPath(run[k])
    requires MatchAt(run, 0) == Some(e) && e <= |run|
    requires Fits(q)
    requires |q| < d <= |q + run[e..]|
    ensures !Valid(q + run[e..], 0, d)
  {
    MatchAtLongest(run, 0);
    var t, s := q + run[e..], d - |q|;
    assert forall k | |q| <= k < |t| :: t[k] == run[k - |q| + e];
    if Valid(t, 0, d) {
      assert t[|q|] == run[e] && !IsAlnum(run[e]);
      EndTransfers(t, d, run, e + s, s);
      assert false;
    }
  }

  /** Validity of an end carries over between two runs that agree on their last `s` characters before it. */
  lemma EndTransfers(t: string, d: nat, run: string, f: nat, s: nat)
    requires 0 < s < d <= |t| && s < f <= |run| && Valid(t, 0, d) && BodyAt(run, 0, f - s)
    requires |t| - d == |run| - f
    requires forall k | d - s <= k < |t| :: t[k] == run[k - d + f]
    requires forall k | f - s <= k < |run| :: run[k] == t[k - f + d]
    requires !IsAlnum(t[d - s])
    ensures Valid(run, 0, f)
  {
    forall k | 0 < k < f && run[k - 1] == '/'
      ensures run[k] != '/'
    {
      if f - s < k {
        assert t[k - f + d - 1] == '/';
      }
    }
    assert t[d - 1] == run[f - 1];
    assert s >= 3;
    assert t[d - 2] == run[f - 2] && t[d - 3] == run[f - 3];
  }

  lemma ReToken(run: string, e: nat, q: string)
    requires forall k | 0 <= k < |run| :: IsPath(run[k])
    requires MatchAt(run, 0) == Some(e)
    requires Fits(q)
    ensures RunTokens(q + run[e..]) == if IsToken(q) then [q] else []
  {
    hide MatchAt;
    MatchAtLongest(run, 0);
    var t := q + run[e..];
    forall d | |q| < d <= |t|
      ensures !Valid(t, 0, d)
    {
      NoEndBeyond(run, e, q, d);
    }
    assert t[..|q|] == q;
    BodySlice(t, |q|);
    if IsToken(q) {
      assert |q| < |t| ==> t[|q|] == run[e];
      LongestUnique(t, Some(|q|));
    } else {
      forall d | 0 <= d <= |q|
        ensures !Valid(t, 0, d)
      {
        assert forall k | 0 <= k < d :: t[k] == q[k];
      }
      LongestUnique(t, None);
    }
  }

  function EditedToken(tok: string, m: map<string, string>): seq<string> {
    var q := EditToken(tok, m);
    if IsToken(q) then [q] else []
  }

  /** What the tokens of a text become: a replacement that is itself a token, or nothing. */
  function EditedTokens(toks: seq<string>, m: map<string, string>): seq<string> {
    if toks == [] then [] else EditedToken(toks[0], m) + EditedTokens(toks[1..], m)
  }

  lemma {:induction false} EditedTokensConcat(a: seq<string>, b: seq<string>, m: map<string, string>)
    ensures EditedTokens(a + b, m) == EditedTokens(a, m) + EditedTokens(b, m)
  {
    hide EditedToken;
    if a == [] {
      assert a + b == b;
    } else {
      ConsConcat(a, b);
      EditedTokensConcat(a[1..], b, m);
      ConcatAssoc(EditedToken(a[0], m), EditedTokens(a[1..], m), EditedTokens(b, m));
    }
  }

  lemma OneEdited(tok: string, m: map<string, string>)
    ensures EditedTokens([tok], m) == EditedToken(tok, m)
  {
    hide EditedToken;
    assert [tok][1..] == [];
    assert EditedToken(tok, m) + [] == EditedToken(tok, m);
  }

  lemma MatchEnd(run: string, e: nat)
    requires MatchAt(run, 0) == Some(e)
    ensures 0 < e <= |run| && IsToken(run[..e])
  {
    MatchAtLongest(run, 0);
    hide MatchAt;
    BodySlice(run, e);
  }

  lemma HitKept(run: string, e: nat, m: map<string, string>)
    requires MatchAt(run, 0) == Some(e) && e <= |run| && IsToken(run[..e]) && run[..e] !in m
    ensures EditRun(run, m) == run && RunTokens(run) == EditedToken(run[..e], m)
  {
    hide MatchAt, IsToken;
    assert run[..e] + run[e..] == run;
  }

  lemma HitReplaced(run: string, e: nat, m: map<string, string>)
    requires forall k | 0 <= k < |run| :: IsPath(run[k])
    requires MatchAt(run, 0) == Some(e) && e <= |run| && run[..e] in m && Fits(m[run[..e]])
    ensures RunTokens(EditRun(run, m)) == EditedToken(run[..e], m)
    ensures EditRun(run, m) != "" && forall k | 0 <= k < |EditRun(run, m)| :: IsPath(EditRun(run, m)[k])
  {
    ReToken(run, e, m[run[..e]]);
    hide MatchAt, IsToken;
    assert forall k | e <= k < |run| :: run[e..][k - e] == run[k];
  }

  lemma EditRunTokens(run: string, m: map<string, string>)
    requires forall k | 0 <= k < |run| :: IsPath(run[k])
    requires Keeps(m)
    ensures RunTokens(EditRun(run, m)) == EditedTokens(RunTokens(run), m)
    ensures run != "" ==> EditRun(run, m) != ""
    ensures forall k | 0 <= k < |EditRun(run, m)| :: IsPath(EditRun(run, m)[k])
  {
    hide MatchAt, Fits, IsToken, EditedToken;
    match MatchAt(run, 0)
    case Some(e) =>
      MatchEnd(run, e);
      OneEdited(run[..e], m);
      if run[..e] in m {
        HitReplaced(run, e, m);
      } else {
        HitKept(run, e, m);
      }
    case None =>
  }

  lemma EditHead(t: string, m: map<string, string>)
    requires t != "" && !IsPath(t[0])
    ensures Edit(t, m) != "" && Edit(t, m)[0] == t[0]
  {
    var c := CutOf(t);
    assert c.run != "" ==> t[|c.gap|] == c.run[0];
    assert c.gap != "" && t[0] == c.gap[0];
  }

  /** Re-tokenising an edited text finds the old tokens and the replacements, nothing else. */
  lemma {:induction false} TokensOfEdit(t: string, m: map<string, string>)
    requires Keeps(m)
    ensures Tokens(Edit(t, m)) == EditedTokens(Tokens(t), m)
    decreases |t|
  {
    if t != "" {
      var c := CutOf(t);
      TokensOfEdit(c.tail, m);
      EditRunTokens(c.run, m);
      EditedTokensConcat(RunTokens(c.run), Tokens(c.tail), m);
      if c.tail != "" {
        EditHead(c.tail, m);
      }
      var d := Cut(c.gap, EditRun(c.run, m), Edit(c.tail, m));
      if c.run == "" {
        assert MatchAt(c.run, 0) == None by { MatchAtLongest(c.run, 0); }
      }
      CutUnique(d);
      assert Edit(t, m) == d.gap + d.run + d.tail;
      assert Edit(t, m) != "" by { assert c.gap + c.run + c.tail != ""; }
    }
  }

  /** The outside pieces of a gap and a run put before those of the rest. */
  function OutsideCut(gap: string, run: string, rest: seq<string>): (r: seq<string>)
    requires rest != []
    ensures |r| == |RunTokens(run)| + |rest|
  {
    match MatchAt(run, 0)
    case Some(e) => [gap, run[e..] + rest[0]] + rest[1..]
    case None => [gap + run + rest[0]] + rest[1..]
  }

  /** The text between the tokens: one more piece than there are tokens. */
  function Outside(t: string): (r: seq<string>)
    ensures |r| == |Tokens(t)| + 1
    decreases |t|
  {
    if t == "" then [""] else var c := CutOf(t); OutsideCut(c.gap, c.run, Outside(c.tail))
  }

  function Weave(outside: seq<string>, toks: seq<string>): string
    requires |outside| == |toks| + 1
  {
    if toks == [] then outside[0] else outside[0] + toks[0] + Weave(outside[1..], toks[1..])
  }

  function EditAll(toks: seq<string>, m: map<string, string>): seq<string> {
    seq(|toks|, k requires 0 <= k < |toks| => EditToken(toks[k], m))
  }

  lemma WeaveHead(pre: string, outside: seq<string>, toks: seq<string>)
    requires |outside| == |toks| + 1
    ensures Weave([pre + outside[0]] + outside[1..], toks) == pre + Weave(outside, toks)
  {
    if toks != [] {
      assert ([pre + outside[0]] + outside[1..])[1..] == outside[1..];
      assert (pre + outside[0]) + toks[0] + Weave(outside[1..], toks[1..])
             == pre + (outside[0] + toks[0] + Weave(outside[1..], toks[1..]));
    }
  }

  lemma WeaveCons(gap: string, tok: string, outside: seq<string>, toks: seq<string>)
    requires |outside| == |toks| + 1
    ensures Weave([gap] + outside, [tok] + toks) == gap + tok + Weave(outside, toks)
  {
    assert ([gap] + outside)[1..] == outside && ([tok] + toks)[1..] == toks;
  }

  lemma EditAllConcat(a: seq<string>, b: seq<string>, m: map<string, string>)
    ensures EditAll(a + b, m) == EditAll(a, m) + EditAll(b, m)
  {
  }

  /** One cut of the statement below. */
  lemma EditWeavesCut(gap: string, run: string, rest: seq<string>, toks: seq<string>, m: map<string, string>)
    requires |rest| == |toks| + 1
    ensures Weave(OutsideCut(gap, run, rest), EditAll(RunTokens(run), m) + toks) == gap + EditRun(run, m) + Weave(rest, toks)
  {
    hide MatchAt, EditToken;
    var w := Weave(rest, toks);
    match MatchAt(run, 0)
    case Some(e) =>
      var q := EditToken(run[..e], m);
      var after := [run[e..] + rest[0]] + rest[1..];
      WeaveHead(run[e..], rest, toks);
      WeaveCons(gap, q, after, toks);
      assert OutsideCut(gap, run, rest) == [gap] + after;
      assert EditAll(RunTokens(run), m) == [q];
      assert gap + q + (run[e..] + w) == gap + (q + run[e..]) + w;
    case None =>
      WeaveHead(gap + run, rest, toks);
      assert EditAll(RunTokens(run), m) + toks == toks;
  }

  /** An edit replaces each token in its place and copies everything outside the tokens. */
  lemma {:induction false} EditWeaves(t: string, m: map<string, string>)
    ensures Edit(t, m) == Weave(Outside(t), EditAll(Tokens(t), m))
    decreases |t|
  {
    if t != "" {
      var c := CutOf(t);
      EditWeaves(c.tail, m);
      EditWeavesCut(c.gap, c.run, Outside(c.tail), EditAll(Tokens(c.tail), m), m);
      EditAllConcat(RunTokens(c.run), Tokens(c.tail), m);
    }
  }

  /** Leaving every token alone gives the text back: the pieces really are the text. */
  lemma TextWeaves(t: string)
    ensures t == Weave(Outside(t), Tokens(t))
  {
    EditWeaves(t, map[]);
    EditIdentity(t, map[]);
    assert EditAll(Tokens(t), map[]) == Tokens(t);
  }

  lemma EditRunIdentity(run: string, m: map<string, string>)
    requires forall tok | tok in RunTokens(run) :: tok in m ==> m[tok] == tok
    ensures EditRun(run, m) == run
  {
    if MatchAt(run, 0).Some? {
      var e := MatchAt(run, 0).value;
      assert run[..e] in RunTokens(run);
      assert run[..e] + run[e..] == run;
    }
  }

  /** Replacing no token, or each by itself, gives the text back. */
  lemma {:induction false} EditIdentity(t: string, m: map<string, string>)
    requires forall tok | tok in Tokens(t) :: tok in m ==> m[tok] == tok
    ensures Edit(t, m) == t
    decreases |t|
  {
    if t != "" {
      var c := CutOf(t);
      var toks := RunTokens(c.run);
      assert Tokens(t) == toks + Tokens(c.tail);
      assert forall tok | tok in Tokens(c.tail) :: tok in Tokens(t);
      EditIdentity(c.tail, m);
      assert forall tok | tok in toks :: tok in Tokens(t);
      EditRunIdentity(c.run, m);
    }
  }

  lemma {:induction false} EditedFrom(toks: seq<string>, m: map<string, string>, q: string) returns (tok: string)
    requires q in EditedTokens(toks, m)
    ensures tok in toks && q == EditToken(tok, m)
  {
    if q in EditedToken(toks[0], m) {
      tok := toks[0];
    } else {
      tok := EditedFrom(toks[1..], m, q);
    }
  }
}
