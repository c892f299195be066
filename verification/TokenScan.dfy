/** The left-to-right scan of `re.finditer` over a whole text, and the proof that it sees exactly the
    tokens found run by run. */
module TokenScan {
  import opened Text
  import opened PathTokens
  import opened TokenEdit

  datatype Span = Span(start: nat, end: nat)

  /** Spans in order, not overlapping, from `last` on. */
  predicate Ordered(t: string, last: nat, spans: seq<Span>)
    decreases |spans|
  {
    if spans == [] then last <= |t|
    else last <= spans[0].start <= spans[0].end && Ordered(t, spans[0].end, spans[1..])
  }

  lemma {:induction false} OrderedBound(t: string, last: nat, spans: seq<Span>)
    requires Ordered(t, last, spans)
    ensures last <= |t| && (spans != [] ==> spans[0].end <= |t|)
    decreases |spans|
  {
    if spans != [] {
      OrderedBound(t, spans[0].end, spans[1..]);
    }
  }

  /** `_PATH_TOKEN_RE.finditer(t)`, resumed at `i`. */
  function FindIter(t: string, i: nat): (spans: seq<Span>)
    requires i <= |t|
    ensures Ordered(t, i, spans)
    decreases |t| - i
  {
    if i == |t| then []
    else if LeftBoundary(t, i) && MatchAt(t, i).Some? then
      var e := MatchAt(t, i).value;
      [Span(i, e)] + FindIter(t, e)
    else FindIter(t, i + 1)
  }

  /** The tokens at the given spans. */
  function SpanTokens(t: string, last: nat, spans: seq<Span>): seq<string>
    requires Ordered(t, last, spans)
    decreases |spans|
  {
    OrderedBound(t, last, spans);
    if spans == [] then [] else [t[spans[0].start..spans[0].end]] + SpanTokens(t, spans[0].end, spans[1..])
  }

  /** What is left to emit when everything before `last` is already out. */
  function Splice(t: string, last: nat, spans: seq<Span>, m: map<string, string>): string
    requires Ordered(t, last, spans)
    decreases |spans|
  {
    OrderedBound(t, last, spans);
    if spans == [] then t[last..]
    else
      var s := spans[0];
      t[last..s.start] + EditToken(t[s.start..s.end], m) + Splice(t, s.end, spans[1..], m)
  }

  lemma {:induction false} SkipScan(t: string, i: nat, g: nat)
    requires i <= g <= |t|
    requires forall k | i <= k < g :: !IsPath(t[k]) || !LeftBoundary(t, k)
    ensures FindIter(t, i) == FindIter(t, g)
    decreases g - i
  {
    if i < g {
      MatchAtLongest(t, i);
      SkipScan(t, i + 1, g);
    }
  }

  /** The pattern sees only the run of path characters it starts in. */
  lemma MatchAtRun(t: string, g: nat, r: nat)
    requires g <= r <= |t| && (forall k | g <= k < r :: IsPath(t[k])) && (r < |t| ==> !IsPath(t[r]))
    ensures var e := MatchAt(t[g..r], 0); MatchAt(t, g) == if e.Some? then Some(g + e.value) else None
  {
    hide MatchAt;
    var run := t[g..r];
    MatchAtLongest(t, g);
    MatchAtLongest(run, 0);
    forall e | g <= e <= r
      ensures Valid(t, g, e) <==> Valid(run, 0, e - g)
    {
      ValidSlice(t, g, r, e);
    }
    assert forall e | r < e <= |t| :: !Valid(t, g, e);
    var a, b := MatchAt(run, 0), MatchAt(t, g);
    assert a.Some? ==> Valid(t, g, g + a.value);
    assert b.Some? ==> b.value <= r && Valid(run, 0, b.value - g);
  }

  lemma ValidSlice(t: string, g: nat, r: nat, e: nat)
    requires g <= e <= r <= |t| && (r < |t| ==> !IsPath(t[r]))
    ensures Valid(t, g, e) <==> Valid(t[g..r], 0, e - g)
  {
    var run := t[g..r];
    assert forall k | 0 <= k < r - g :: run[k] == t[g + k];
    assert BodyAt(run, 0, e - g) ==> forall k | g <= k < e :: t[k] == run[k - g];
  }

  /** `i` does not fall inside a run of path characters. */
  predicate CutPoint(t: string, i: nat)
    requires i <= |t|
  {
    i == 0 || i == |t| || !IsPath(t[i - 1]) || !IsPath(t[i])
  }

  /** Scanning across one gap and one run yields the run's token. */
  lemma ScanCut(t: string, i: nat)
    requires i <= |t| && CutPoint(t, i)
    ensures var g := GapEnd(t, i);
            var r := RunEnd(t, g);
            FindIter(t, i) == (match MatchAt(t[g..r], 0)
                               case Some(e) => [Span(g, g + e)]
                               case None => []) + FindIter(t, r)
  {
    hide MatchAt;
    var g := GapEnd(t, i);
    var r := RunEnd(t, g);
    SkipScan(t, i, g);
    MatchAtRun(t, g, r);
    match MatchAt(t[g..r], 0)
    case Some(e) =>
      SkipScan(t, g + e, r);
    case None =>
      if g < r {
        SkipScan(t, g + 1, r);
      }
  }

  lemma CutAt(t: string, i: nat)
    requires i <= |t| && CutPoint(t, i)
    ensures var g := GapEnd(t, i); var r := RunEnd(t, g); CutOf(t[i..]) == Cut(t[i..g], t[g..r], t[r..])
  {
    var g := GapEnd(t, i);
    var r := RunEnd(t, g);
    var c := Cut(t[i..g], t[g..r], t[r..]);
    assert WellCut(c);
    hide WellCut, CutOf, GapEnd, RunEnd;
    assert c.gap + c.run + c.tail == t[i..];
    CutUnique(c);
  }

  lemma EditCut(t: string, i: nat, m: map<string, string>)
    requires i < |t| && CutPoint(t, i)
    ensures var g := GapEnd(t, i);
            var r := RunEnd(t, g);
            && Edit(t[i..], m) == t[i..g] + EditRun(t[g..r], m) + Edit(t[r..], m)
            && Tokens(t[i..]) == RunTokens(t[g..r]) + Tokens(t[r..])
  {
    hide WellCut, EditRun, RunTokens;
    CutAt(t, i);
  }

  lemma SpanCons(t: string, last: nat, s: Span, spans: seq<Span>, m: map<string, string>)
    requires last <= s.start <= s.end && Ordered(t, s.end, spans)
    ensures Ordered(t, last, [s] + spans) && s.end <= |t|
    ensures SpanTokens(t, last, [s] + spans) == [t[s.start..s.end]] + SpanTokens(t, s.end, spans)
    ensures Splice(t, last, [s] + spans, m) == t[last..s.start] + EditToken(t[s.start..s.end], m) + Splice(t, s.end, spans, m)
  {
    hide EditToken;
    OrderedBound(t, s.end, spans);
    assert ([s] + spans)[1..] == spans;
  }

  /** Emitting from `last` on, with the scan resumed at a cut point `i`, is editing what follows `i`. */
  lemma {:induction false} ScanFrom(t: string, last: nat, i: nat, m: map<string, string>)
    requires last <= i <= |t| && CutPoint(t, i)
    ensures Ordered(t, last, FindIter(t, i))
    ensures SpanTokens(t, last, FindIter(t, i)) == Tokens(t[i..])
    ensures Splice(t, last, FindIter(t, i), m) == t[last..i] + Edit(t[i..], m)
    decreases |t| - i
  {
    hide MatchAt, Edit, EditToken, Tokens, WellCut, FindIter, Splice, SpanTokens;
    if i == |t| {
      ScanEnd(t, last, m);
    } else {
      var g := GapEnd(t, i);
      var r := RunEnd(t, g);
      if MatchAt(t[g..r], 0).Some? {
        var e := MatchAt(t[g..r], 0).value;
        ScanFrom(t, g + e, r, m);
        ScanHit(t, last, i, g, e, r, m);
      } else {
        ScanFrom(t, last, r, m);
        ScanMiss(t, last, i, g, r, m);
      }
    }
  }

  lemma ScanEnd(t: string, last: nat, m: map<string, string>)
    requires last <= |t|
    ensures var spans := FindIter(t, |t|);
            && Ordered(t, last, spans)
            && SpanTokens(t, last, spans) == Tokens(t[|t|..])
            && Splice(t, last, spans, m) == t[last..|t|] + Edit(t[|t|..], m)
  {
    assert t[|t|..] == "" && t[last..|t|] == t[last..];
  }

  lemma MissRun(run: string, m: map<string, string>)
    requires MatchAt(run, 0) == None
    ensures EditRun(run, m) == run && RunTokens(run) == []
  {
  }

  lemma ScanMiss(t: string, last: nat, i: nat, g: nat, r: nat, m: map<string, string>)
    requires last <= i < |t| && CutPoint(t, i) && g == GapEnd(t, i) && r == RunEnd(t, g)
    requires MatchAt(t[g..r], 0) == None
    requires Ordered(t, last, FindIter(t, r))
    ensures FindIter(t, i) == FindIter(t, r)
    ensures Tokens(t[i..]) == Tokens(t[r..])
    ensures t[last..i] + Edit(t[i..], m) == t[last..r] + Edit(t[r..], m)
  {
    MissRun(t[g..r], m);
    hide MatchAt, Edit, Tokens, WellCut, FindIter, EditRun, RunTokens;
    ScanCut(t, i);
    EditCut(t, i, m);
    assert [] + FindIter(t, r) == FindIter(t, r) && [] + Tokens(t[r..]) == Tokens(t[r..]);
    CopyMiss(t, last, i, g, r, Edit(t[r..], m));
  }

  lemma CopyMiss(t: string, last: nat, i: nat, g: nat, r: nat, rest: string)
    requires last <= i <= g <= r <= |t|
    ensures t[last..i] + (t[i..g] + t[g..r] + rest) == t[last..r] + rest
  {
    assert t[last..r] == t[last..i] + (t[i..g] + t[g..r]);
  }

  lemma ScanHit(t: string, last: nat, i: nat, g: nat, e: nat, r: nat, m: map<string, string>)
    requires last <= i < |t| && CutPoint(t, i) && g == GapEnd(t, i) && r == RunEnd(t, g)
    requires MatchAt(t[g..r], 0) == Some(e) && g + e <= r
    requires Ordered(t, g + e, FindIter(t, r))
    requires SpanTokens(t, g + e, FindIter(t, r)) == Tokens(t[r..])
    requires Splice(t, g + e, FindIter(t, r), m) == t[g + e..r] + Edit(t[r..], m)
    ensures Ordered(t, last, FindIter(t, i))
    ensures SpanTokens(t, last, FindIter(t, i)) == Tokens(t[i..])
    ensures Splice(t, last, FindIter(t, i), m) == t[last..i] + Edit(t[i..], m)
  {
    hide MatchAt, Edit, EditToken, Tokens, WellCut, FindIter, Splice, SpanTokens, Ordered;
    ScanCut(t, i);
    HitCut(t, i, g, e, r, m);
    hide GapEnd, RunEnd, CutPoint;
    SpanCons(t, last, Span(g, g + e), FindIter(t, r), m);
    Regroup(t, last, i, g, EditToken(t[g..g + e], m), t[g + e..r], Edit(t[r..], m));
  }

  lemma HitRun(run: string, e: nat, m: map<string, string>)
    requires MatchAt(run, 0) == Some(e) && e <= |run|
    ensures EditRun(run, m) == EditToken(run[..e], m) + run[e..] && RunTokens(run) == [run[..e]]
  {
  }

  lemma HitCut(t: string, i: nat, g: nat, e: nat, r: nat, m: map<string, string>)
    requires i < |t| && CutPoint(t, i) && g == GapEnd(t, i) && r == RunEnd(t, g)
    requires MatchAt(t[g..r], 0) == Some(e) && g + e <= r
    ensures Edit(t[i..], m) == t[i..g] + (EditToken(t[g..g + e], m) + t[g + e..r]) + Edit(t[r..], m)
    ensures Tokens(t[i..]) == [t[g..g + e]] + Tokens(t[r..])
  {
    hide MatchAt, Edit, EditToken, Tokens, EditRun, RunTokens, CutPoint;
    EditCut(t, i, m);
    SliceSlice(t, g, r, e);
    HitRun(t[g..r], e, m);
  }

  lemma SliceSlice(t: string, g: nat, r: nat, e: nat)
    requires g + e <= r <= |t|
    ensures t[g..r][..e] == t[g..g + e] && t[g..r][e..] == t[g + e..r]
  {
  }

  lemma Regroup(t: string, last: nat, i: nat, g: nat, c: string, d: string, e: string)
    requires last <= i <= g <= |t|
    ensures t[last..g] + c + (d + e) == t[last..i] + (t[i..g] + (c + d) + e)
  {
    assert t[last..g] == t[last..i] + t[i..g];
    RegroupParts(t[last..i], t[i..g], c, d, e);
  }

  lemma RegroupParts(a: string, b: string, c: string, d: string, e: string)
    ensures (a + b) + c + (d + e) == a + (b + (c + d) + e)
  {
  }

  /** The whole scan: the same tokens, and the same edited text. */
  lemma ScanIsEdit(t: string, m: map<string, string>)
    ensures SpanTokens(t, 0, FindIter(t, 0)) == Tokens(t)
    ensures Splice(t, 0, FindIter(t, 0), m) == Edit(t, m)
  {
    ScanFrom(t, 0, 0, m);
    assert t[0..] == t;
  }
}
