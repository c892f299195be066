/** String operations shared by the models: Python's `str.split(sep)`, `sep.join(parts)`,
    prefix and suffix tests, and the character classes the regular expressions use. */
module Text {

  datatype Option<+T> = None | Some(value: T)

  predicate IsDigit(c: char) { '0' <= c <= '9' }

  predicate IsLower(c: char) { 'a' <= c <= 'z' }

  predicate IsUpper(c: char) { 'A' <= c <= 'Z' }

  /** The class `[A-Za-z0-9]`. */
  predicate IsAlnum(c: char) { IsDigit(c) || IsLower(c) || IsUpper(c) }

  /** `str.isspace`, which is also what `\s` and `str.strip` use on Python strings. */
  predicate IsSpace(c: char) {
    var n := c as int;
    0x09 <= n <= 0x0D || 0x1C <= n <= 0x20 || n == 0x85 || n == 0xA0 || n == 0x1680 || 0x2000 <= n <= 0x200A
    || n == 0x2028 || n == 0x2029 || n == 0x202F || n == 0x205F || n == 0x3000
  }

  /** The same characters, one by one: the white space of Unicode 15 and the four separators that `str.isspace` adds. */
  lemma SpacesListed(c: char)
    ensures IsSpace(c)
            <==> c as int in {0x09, 0x0A, 0x0B, 0x0C, 0x0D, 0x1C, 0x1D, 0x1E, 0x1F, 0x20, 0x85, 0xA0, 0x1680,
                              0x2000, 0x2001, 0x2002, 0x2003, 0x2004, 0x2005, 0x2006, 0x2007, 0x2008, 0x2009, 0x200A,
                              0x2028, 0x2029, 0x202F, 0x205F, 0x3000}
  {
  }

  predicate StartsWith(s: string, p: string) { |p| <= |s| && s[..|p|] == p }

  predicate EndsWith(s: string, p: string) { |p| <= |s| && s[|s| - |p|..] == p }

  /** Python's `s.split(c)` for a one-character separator; never empty. */
  function Split(s: string, c: char): (r: seq<string>)
    ensures |r| >= 1
  {
    if s == "" then [""]
    else if s[0] == c then [""] + Split(s[1..], c)
    else var r := Split(s[1..], c); [[s[0]] + r[0]] + r[1..]
  }

  /** Python's `sep.join(parts)`. */
  function Join(sep: string, parts: seq<string>): string {
    if parts == [] then "" else if |parts| == 1 then parts[0] else parts[0] + sep + Join(sep, parts[1..])
  }

  function LStrip(s: string): string {
    if s != "" && IsSpace(s[0]) then LStrip(s[1..]) else s
  }

  predicate AllSpace(s: string) { forall k | 0 <= k < |s| :: IsSpace(s[k]) }

  lemma {:induction false} LStripGap(gap: string, s: string)
    requires AllSpace(gap) && (s != "" ==> !IsSpace(s[0]))
    ensures LStrip(gap + s) == s
  {
    hide IsSpace;
    if gap == "" {
      assert gap + s == s;
    } else {
      assert (gap + s)[1..] == gap[1..] + s;
      LStripGap(gap[1..], s);
    }
  }

  lemma {:induction false} LStripRest(s: string) returns (gap: string)
    ensures AllSpace(gap) && s == gap + LStrip(s) && (LStrip(s) != "" ==> !IsSpace(LStrip(s)[0]))
  {
    hide IsSpace;
    gap := "";
    if s != "" && IsSpace(s[0]) {
      gap := LStripRest(s[1..]);
      assert s == [s[0]] + (gap + LStrip(s[1..]));
      gap := [s[0]] + gap;
    }
  }

  function RStrip(s: string): string {
    if s != "" && IsSpace(s[|s| - 1]) then RStrip(s[..|s| - 1]) else s
  }

  /** Python's `s.strip()`. */
  function Strip(s: string): string { RStrip(LStrip(s)) }

  lemma ConcatAssoc<T>(a: seq<T>, b: seq<T>, c: seq<T>)
    ensures a + (b + c) == (a + b) + c
  {
  }

  lemma ConsConcat<T>(a: seq<T>, b: seq<T>)
    requires a != []
    ensures (a + b)[0] == a[0] && (a + b)[1..] == a[1..] + b
  {
  }

  lemma {:induction false} SplitNone(s: string, c: char)
    requires c !in s
    ensures Split(s, c) == [s]
  {
    if s != "" {
      SplitNone(s[1..], c);
      assert s == [s[0]] + s[1..];
    }
  }

  lemma {:induction false} SplitConcat(a: string, b: string, c: char)
    ensures Split(a + [c] + b, c) == Split(a, c) + Split(b, c)
  {
    var t := a + [c] + b;
    if a == "" {
      assert t[1..] == b;
    } else {
      assert t[1..] == a[1..] + [c] + b;
      SplitConcat(a[1..], b, c);
    }
  }

  lemma {:induction false} JoinSplit(s: string, c: char)
    ensures Join([c], Split(s, c)) == s
  {
    if s != "" {
      JoinSplit(s[1..], c);
      var r := Split(s[1..], c);
      if s[0] == c {
        assert Split(s, c)[1..] == r;
        assert s == "" + [c] + s[1..];
      } else if |r| > 1 {
        assert Split(s, c)[1..] == r[1..];
        assert s == [s[0]] + s[1..];
      } else {
        assert s == [s[0]] + s[1..];
      }
    }
  }

  lemma {:induction false} SplitJoin(parts: seq<string>, c: char)
    requires parts != []
    requires forall p | p in parts :: c !in p
    ensures Split(Join([c], parts), c) == parts
  {
    assert parts[0] in parts;
    SplitNone(parts[0], c);
    if |parts| > 1 {
      var rest := parts[1..];
      assert Join([c], parts) == parts[0] + [c] + Join([c], rest) && forall p | p in rest :: p in parts;
      hide Split, Join;
      SplitJoin(rest, c);
      SplitConcat(parts[0], Join([c], rest), c);
      assert parts == [parts[0]] + rest;
    }
  }

  lemma {:induction false} SplitParts(s: string, c: char)
    ensures forall p | p in Split(s, c) :: c !in p && forall x | x in p :: x in s
  {
    if s != "" {
      SplitParts(s[1..], c);
    }
  }

  /** Two strings with the same parts are the same string. */
  lemma SplitInjective(s: string, t: string, c: char)
    requires Split(s, c) == Split(t, c)
    ensures s == t
  {
    JoinSplit(s, c);
    JoinSplit(t, c);
  }

  lemma {:induction false} JoinConcat(sep: string, a: seq<string>, b: seq<string>)
    requires a != [] && b != []
    ensures Join(sep, a + b) == Join(sep, a) + sep + Join(sep, b)
  {
    if |a| == 1 {
      assert (a + b)[1..] == b;
    } else {
      assert (a + b)[1..] == a[1..] + b;
      JoinConcat(sep, a[1..], b);
      assert Join(sep, a + b) == a[0] + sep + Join(sep, a[1..] + b);
      assert a[0] + sep + (Join(sep, a[1..]) + sep + Join(sep, b)) == (a[0] + sep + Join(sep, a[1..])) + sep + Join(sep, b);
    }
  }

  /** Python's `"".join(parts)`. */
  function Concat(parts: seq<string>): string {
    if parts == [] then "" else parts[0] + Concat(parts[1..])
  }

  lemma {:induction false} ConcatPlus(a: seq<string>, b: seq<string>)
    ensures Concat(a + b) == Concat(a) + Concat(b)
  {
    if a == [] {
      assert a + b == b;
    } else {
      ConsConcat(a, b);
      ConcatPlus(a[1..], b);
      ConcatAssoc(a[0], Concat(a[1..]), Concat(b));
    }
  }

  lemma ConcatSnoc(a: seq<string>, x: string)
    ensures Concat(a + [x]) == Concat(a) + x
  {
    ConcatPlus(a, [x]);
    assert Concat([x]) == x + Concat([]) == x;
  }

  // ---------------------------------------------------------------------------------------------
  // Sorting
  // ---------------------------------------------------------------------------------------------

  /** Python's order on strings: by code points, a proper prefix first. */
  predicate Less(a: string, b: string) {
    b != "" && (a == "" || a[0] < b[0] || (a[0] == b[0] && Less(a[1..], b[1..])))
  }

  predicate Ascending(l: seq<string>) { forall i, j | 0 <= i < j < |l| :: Less(l[i], l[j]) }

  /** The first difference decides, and a proper prefix comes first. */
  lemma {:induction false} LessMeaning(a: string, b: string)
    ensures Less(a, b) <==> exists k | 0 <= k <= |a| && k < |b| :: a[..k] == b[..k] && (k == |a| || a[k] < b[k])
  {
    if a == "" || b == "" || a[0] != b[0] {
      assert a == "" && b != "" ==> a[..0] == b[..0];
      assert a != "" && b != "" ==> a[..0] == b[..0];
      forall k | 0 < k <= |a| && k < |b|
        ensures a[..k] != b[..k]
      {
        assert a[..k][0] == a[0] && b[..k][0] == b[0];
      }
    } else {
      LessMeaning(a[1..], b[1..]);
      if k :| 0 <= k <= |a| && k < |b| && a[..k] == b[..k] && (k == |a| || a[k] < b[k]) {
        assert a[1..][..k - 1] == a[..k][1..] && b[1..][..k - 1] == b[..k][1..];
      }
      if k :| 0 <= k <= |a[1..]| && k < |b[1..]| && a[1..][..k] == b[1..][..k] && (k == |a[1..]| || a[1..][k] < b[1..][k]) {
        assert a[..k + 1] == [a[0]] + a[1..][..k] && b[..k + 1] == [b[0]] + b[1..][..k];
      }
    }
  }

  /** Of two strings exactly one is less, or they are equal. */
  lemma {:induction false} LessTotal(a: string, b: string)
    ensures Less(a, b) || Less(b, a) || a == b
    ensures Less(a, b) ==> !Less(b, a) && a != b
  {
    if a != "" && b != "" && a[0] == b[0] {
      LessTotal(a[1..], b[1..]);
      assert a == [a[0]] + a[1..] && b == [b[0]] + b[1..];
    }
  }

  lemma {:induction false} LessTransitive(a: string, b: string, c: string)
    requires Less(a, b) && Less(b, c)
    ensures Less(a, c)
  {
    if a != "" && a[0] == b[0] == c[0] {
      LessTransitive(a[1..], b[1..], c[1..]);
    }
  }

  predicate Least(x: string, s: set<string>) { x in s && forall y | y in s && y != x :: Less(x, y) }

  lemma LeastOfMore(x: string, z: string, s: set<string>)
    requires Least(x, s - {z}) && z in s
    ensures Least(if Less(x, z) then x else z, s)
  {
    hide Less;
    LessTotal(x, z);
    forall y | y in s && y != z && Less(z, x)
      ensures Less(z, y)
    {
      if y != x {
        LessTransitive(z, x, y);
      }
    }
  }

  lemma {:induction false} LeastExists(s: set<string>) returns (x: string)
    requires s != {}
    ensures Least(x, s)
  {
    var z :| z in s;
    if s == {z} {
      return z;
    }
    assert s - {z} != {} by {
      assert s == (s - {z}) + {z};
    }
    var y := LeastExists(s - {z});
    LeastOfMore(y, z, s);
    x := if Less(y, z) then y else z;
  }

  lemma LeastBefore(x: string, s: set<string>)
    requires Least(x, s)
    ensures forall y | y in s - {x} :: Less(x, y)
  {
    forall y | y in s - {x}
      ensures Less(x, y)
    {
      assert y in s && y != x;
    }
  }

  /** Python's `sorted(s)`. */
  method SortedList(s: set<string>) returns (l: seq<string>)
    ensures Ascending(l) && forall x :: x in l <==> x in s
  {
    l := [];
    var rest := s;
    while rest != {}
      invariant rest <= s && Ascending(l) && forall x :: x in l <==> x in s - rest
      invariant forall x, y | x in l && y in rest :: Less(x, y)
      decreases |rest|
    {
      ghost var least := LeastExists(rest);
      var x :| x in rest && Least(x, rest);
      LeastBefore(x, rest);
      l := l + [x];
      rest := rest - {x};
    }
  }
}
