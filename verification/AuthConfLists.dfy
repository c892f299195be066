/** Reading one rendered user block: grant lists, nkey, comment name, `allow_responses`. */
module AuthConfLists {
  import opened Text
  import opened TextLines
  import opened Patterns
  import opened AuthConf
  import opened AuthConfBlocks

  // ---------------------------------------------------------------------------------------------
  // Quoted lists
  // ---------------------------------------------------------------------------------------------

  lemma StripQuotesBare(s: string)
    requires '"' !in s
    ensures StripQuotes(s) == s && StripQuotes(s + "\"") == s
  {
    var t := s + "\"";
    assert t[..|t| - 1] == s;
    if s != "" {
      assert t[0] == s[0] && s[0] in s && s[|s| - 1] in s;
    }
  }

  /** A quoted grant survives `strip().strip('"')`. */
  lemma UnquoteSafe(s: string)
    requires Safe(s)
    ensures Strip(Quoted(s)) == Quoted(s) && StripQuotes(Quoted(s)) == s
  {
    var q := Quoted(s);
    assert q[0] == '"' && q[|q| - 1] == '"';
    assert q[1..] == s + "\"";
    assert '"' !in s;
    StripQuotesBare(s);
  }

  lemma {:induction false} CleanQuoted(items: seq<string>)
    requires forall g | g in items :: Safe(g)
    ensures CleanItems(QuotedAll(items)) == items
  {
    hide Strip, StripQuotes, Safe, Quoted;
    if items != [] {
      assert items[0] in items;
      UnquoteSafe(items[0]);
      assert QuotedAll(items)[1..] == QuotedAll(items[1..]);
      QuotedNotEmpty(items[0]);
      CleanQuoted(items[1..]);
    }
  }

  lemma QuotedNotEmpty(s: string)
    ensures Quoted(s) != ""
  {
  }

  lemma QuotedParts(items: seq<string>)
    requires forall g | g in items :: Safe(g)
    ensures forall q | q in QuotedAll(items) :: ',' !in q && ']' !in q && ':' !in q && '#' !in q
  {
    forall q | q in QuotedAll(items)
      ensures ',' !in q && ']' !in q && ':' !in q && '#' !in q
    {
      var i :| 0 <= i < |items| && q == Quoted(items[i]);
      assert Safe(items[i]);
    }
  }

  /** White space around an item does not matter, and an item of nothing else is no item. */
  lemma SpacedItems(before: string, g: string, after: string, rest: seq<string>)
    requires AllSpace(before) && AllSpace(after)
    ensures Safe(g) ==> CleanItems([before + Quoted(g) + after] + rest) == [g] + CleanItems(rest)
    ensures CleanItems([before] + rest) == CleanItems(rest)
  {
    StripAround(before, Quoted(g), after);
    StripAround(before, "", "");
    assert before + "" + "" == before && Strip("") == "";
    if Safe(g) {
      UnquoteSafe(g);
      assert Quoted(g)[0] == '"';
    }
    hide Strip, StripQuotes, Safe, Quoted;
    assert ([before + Quoted(g) + after] + rest)[1..] == rest && ([before] + rest)[1..] == rest;
    assert [] + CleanItems(rest) == CleanItems(rest);
  }

  /** The list between the brackets reads back as the list that was written. */
  lemma ListReadsBack(items: seq<string>)
    requires items != [] && forall g | g in items :: Safe(g)
    ensures CleanItems(Split(QuotedList(items), ',')) == items
  {
    QuotedParts(items);
    SplitJoin(QuotedAll(items), ',');
    CleanQuoted(items);
  }

  lemma {:induction false} JoinLacks(parts: seq<string>, c: char)
    requires c != ',' && forall p | p in parts :: c !in p
    ensures c !in Join(",", parts)
  {
    if |parts| > 1 {
      JoinLacks(parts[1..], c);
    }
    if parts != [] {
      assert parts[0] in parts;
    }
  }

  lemma ListLacks(items: seq<string>)
    requires forall g | g in items :: Safe(g)
    ensures ']' !in QuotedList(items) && ':' !in QuotedList(items)
  {
    QuotedParts(items);
    JoinLacks(QuotedAll(items), ']');
    JoinLacks(QuotedAll(items), ':');
  }

  // ---------------------------------------------------------------------------------------------
  // `publish: {...}` and `subscribe: {...}`
  // ---------------------------------------------------------------------------------------------

  predicate AllSpaces(s: string) { All(Spaces, s) }

  /** Spaces, then a literal that does not start with a space. */
  lemma MatchGap(gap: string, t: string, next: Pat, s: string)
    requires AllSpaces(gap) && t != "" && !IsSpace(t[0])
    ensures Match(Run(Spaces, 0, false, Lit(t, next)), gap + (t + s)) == Match(next, s)
  {
    MatchRun(Spaces, 0, false, Lit(t, next), gap, t + s);
    MatchLit(t, next, s);
  }

  lemma MatchBracketed(list: string, s: string)
    requires ']' !in list
    ensures Match(BRACKETED, "[" + (list + ("]" + s))) == Some(Hit(s, [list]))
  {
    MatchLit("[", Run(Except(']'), 0, true, Lit("]", Done)), list + ("]" + s));
    assert ("]" + s)[0] == ']';
    MatchRun(Except(']'), 0, true, Lit("]", Done), list, "]" + s);
    MatchLit("]", Done, s);
    assert Match(Done, s) == Some(Hit(s, []));
    assert [list] + [] == [list];
  }

  /** The pattern after the word, on a block whose key word is the one asked for. */
  lemma MatchList(keyword: string, gap: string, list: string, s: string)
    requires AllSpaces(gap) && keyword != "" && !IsSpace(keyword[0]) && ']' !in list
    ensures Match(Run(Spaces, 0, false, Lit(":", AfterKey(keyword))),
                  ":" + (gap + ("{" + (" " + (keyword + (":" + (" " + ("[" + (list + ("]" + s))))))))))
            == Some(Hit(s, [list]))
  {
    var s4 := "[" + (list + ("]" + s));
    var s3 := ":" + (" " + s4);
    var s2 := "{" + (" " + (keyword + s3));
    hide AfterKey, Match;
    assert "" + (":" + (gap + s2)) == ":" + (gap + s2);
    MatchGap("", ":", AfterKey(keyword), gap + s2);
    MatchAfterKey(keyword, gap, s3);
    assert "" + s3 == s3;
    MatchGap("", ":", Run(Spaces, 0, false, BRACKETED), " " + s4);
    MatchGap(" ", "[", Run(Except(']'), 0, true, Lit("]", Done)), list + ("]" + s));
    MatchLit("[", Run(Except(']'), 0, true, Lit("]", Done)), list + ("]" + s));
    MatchBracketed(list, s);
  }

  lemma MatchAfterKey(keyword: string, gap: string, s: string)
    requires AllSpaces(gap) && keyword != "" && !IsSpace(keyword[0])
    ensures Match(AfterKey(keyword), gap + ("{" + (" " + (keyword + s))))
            == Match(Run(Spaces, 0, false, Lit(":", Run(Spaces, 0, false, BRACKETED))), s)
  {
    var p1 := Run(Spaces, 0, false, Lit(":", Run(Spaces, 0, false, BRACKETED)));
    var p2 := Run(Spaces, 0, false, Lit(keyword, p1));
    MatchGap(gap, "{", p2, " " + (keyword + s));
    MatchGap(" ", keyword, p1, s);
  }

  /** The same pattern on a block whose key word is another one. */
  lemma MatchListOther(keyword: string, other: string, gap: string, s: string)
    requires AllSpaces(gap) && keyword != "" && other != "" && keyword[0] != other[0] && !IsSpace(other[0])
    ensures Match(Run(Spaces, 0, false, Lit(":", AfterKey(keyword))), ":" + (gap + ("{" + (" " + (other + s))))) == None
  {
    hide Match;
    var p1 := Run(Spaces, 0, false, Lit(":", Run(Spaces, 0, false, BRACKETED)));
    var p2 := Run(Spaces, 0, false, Lit(keyword, p1));
    var u := other + s;
    assert "" + (":" + (gap + ("{" + (" " + u)))) == ":" + (gap + ("{" + (" " + u)));
    MatchGap("", ":", AfterKey(keyword), gap + ("{" + (" " + u)));
    MatchGap(gap, "{", p2, " " + u);
    assert u[0] == other[0];
    MatchRun(Spaces, 0, false, Lit(keyword, p1), " ", u);
    MatchLitMiss(keyword, p1, u);
  }

  /** One rendered group, seen by the scan for allow lists. */
  lemma ListStep(word: string, gap: string, items: seq<string>, s: string)
    requires word != "" && All(WordChars, word) && AllSpaces(gap) && forall g | g in items :: Safe(g)
    ensures FindAll(ListPat("allow"), word + (":" + (gap + ("{" + (ListText(items) + ("}" + s))))))
            == (if items != [] then [[word, QuotedList(items)]] else []) + FindAll(ListPat("allow"), s)
  {
    hide FindAll;
    if items != [] {
      GroupHit("allow", word, gap, QuotedList(items), s) by { ListLacks(items); }
      AllowText(QuotedList(items), s);
    } else {
      assert "allow"[0] != "deny"[0] && !IsSpace("deny"[0]) && All(WordChars, "deny");
      OtherStep("allow", "deny", word, gap, "\">\"", s);
      DenyText(s);
    }
  }

  /** The same group, seen by the scan for deny lists. */
  lemma DenyListStep(word: string, gap: string, items: seq<string>, s: string)
    requires word != "" && All(WordChars, word) && AllSpaces(gap) && forall g | g in items :: Safe(g)
    ensures FindAll(ListPat("deny"), word + (":" + (gap + ("{" + (ListText(items) + ("}" + s))))))
            == (if items == [] then [[word, "\">\""]] else []) + FindAll(ListPat("deny"), s)
  {
    hide FindAll;
    if items == [] {
      GroupHit("deny", word, gap, "\">\"", s);
      DenyText(s);
    } else {
      ListLacks(items);
      assert "allow"[0] != "deny"[0] && !IsSpace("allow"[0]) && All(WordChars, "allow");
      OtherStep("deny", "allow", word, gap, QuotedList(items), s);
      AllowText(QuotedList(items), s);
    }
  }

  lemma AllowText(list: string, s: string)
    ensures " allow: [" + list + "] " + ("}" + s) == " " + ("allow" + (":" + (" " + ("[" + (list + ("]" + (" }" + s)))))))
  {
    assert "] " + ("}" + s) == "]" + (" }" + s);
    assert " allow: [" == " " + ("allow" + (":" + (" " + "[")));
  }

  lemma DenyText(s: string)
    ensures " deny: [\">\"] " + ("}" + s) == " " + ("deny" + (":" + (" " + ("[" + ("\">\"" + ("]" + (" }" + s)))))))
  {
    assert " deny: [\">\"] " == " deny: [" + "\">\"" + "] ";
    assert "] " + ("}" + s) == "]" + (" }" + s);
    assert " deny: [" == " " + ("deny" + (":" + (" " + "[")));
  }

  /** A group whose list keyword is the one asked for. */
  lemma KeywordStep(keyword: string, word: string, gap: string, list: string, s: string)
    requires keyword != "" && !IsSpace(keyword[0])
    requires word != "" && All(WordChars, word) && AllSpaces(gap) && ']' !in list
    ensures FindAll(ListPat(keyword),
                    word + (":" + (gap + ("{" + (" " + (keyword + (":" + (" " + ("[" + (list + ("]" + s)))))))))))
            == [[word, list]] + FindAll(ListPat(keyword), s)
  {
    hide Match, FindAll;
    var rest := ":" + (gap + ("{" + (" " + (keyword + (":" + (" " + ("[" + (list + ("]" + s)))))))));
    assert rest[0] == ':';
    MatchList(keyword, gap, list, s);
    WordHit(Run(Spaces, 0, false, Lit(":", AfterKey(keyword))), word, rest);
    assert [word] + [list] == [word, list];
  }

  lemma GroupHit(keyword: string, word: string, gap: string, list: string, s: string)
    requires keyword != "" && !IsSpace(keyword[0])
    requires word != "" && All(WordChars, word) && AllSpaces(gap) && ']' !in list
    ensures FindAll(ListPat(keyword),
                    word + (":" + (gap + ("{" + (" " + (keyword + (":" + (" " + ("[" + (list + ("]" + (" }" + s))))))))))))
            == [[word, list]] + FindAll(ListPat(keyword), s)
  {
    hide Match, FindAll;
    KeywordStep(keyword, word, gap, list, " }" + s);
    SkipNonWord(Run(Spaces, 0, false, Lit(":", AfterKey(keyword))), " }", s);
  }

  /** A group whose list keyword is another one is passed over. */
  lemma OtherStep(keyword: string, other: string, word: string, gap: string, list: string, s: string)
    requires keyword != "" && other != "" && keyword[0] != other[0] && !IsSpace(other[0]) && All(WordChars, other)
    requires word != "" && All(WordChars, word) && AllSpaces(gap) && ':' !in list
    ensures FindAll(ListPat(keyword),
                    word + (":" + (gap + ("{" + (" " + (other + (":" + (" " + ("[" + (list + ("]" + (" }" + s))))))))))))
            == FindAll(ListPat(keyword), s)
  {
    hide FindAll, Match;
    var next := Run(Spaces, 0, false, Lit(":", AfterKey(keyword)));
    var tail := ":" + (" " + ("[" + (list + ("]" + (" }" + s)))));
    var rest := ":" + (gap + ("{" + (" " + (other + tail))));
    assert rest[0] == ':' && tail[0] == ':';
    MatchListOther(keyword, other, gap, tail);
    WordMiss(next, word, rest);
    var junk := ":" + gap + "{" + " ";
    assert rest == junk + (other + tail);
    assert forall k | 0 <= k < |junk| :: !IsWord(junk[k]);
    SkipNonWord(next, junk, other + tail);
    NoGroup(keyword, list + ("]" + (" }" + s)));
    WordMiss(next, other, tail);
    OtherTail(keyword, list, s);
  }

  lemma OtherTail(keyword: string, list: string, s: string)
    requires ':' !in list
    ensures FindAll(ListPat(keyword), ":" + (" " + ("[" + (list + ("]" + (" }" + s)))))) == FindAll(ListPat(keyword), s)
  {
    hide FindAll;
    var seg := " [" + list + "] }";
    assert ":" + (" " + ("[" + (list + ("]" + (" }" + s))))) == ":" + (seg + s);
    SkipNonWord(Run(Spaces, 0, false, Lit(":", AfterKey(keyword))), ":", seg + s);
    assert seg[|seg| - 1] == '}';
    assert ':' !in " [" && ':' !in "] }";
    PassText(keyword, seg, s);
  }

  /** A text without a colon that ends in a brace starts no group. */
  lemma {:induction false} PassText(keyword: string, seg: string, s: string)
    requires ':' !in seg && (seg == "" || seg[|seg| - 1] == '}')
    ensures FindAll(ListPat(keyword), seg + s) == FindAll(ListPat(keyword), s)
    decreases |seg|
  {
    if seg == "" {
      assert seg + s == s;
    } else {
      NoMatchHere(keyword, seg, s);
      hide Match, ListPat;
      assert (seg + s)[1..] == seg[1..] + s;
      PassText(keyword, seg[1..], s);
    }
  }

  lemma NoMatchHere(keyword: string, seg: string, s: string)
    requires ':' !in seg && seg != "" && seg[|seg| - 1] == '}'
    ensures Match(ListPat(keyword), seg + s) == None
  {
    var t := seg + s;
    var n := RunLen(WordChars, t);
    assert t[|seg| - 1] == '}';
    assert n < |seg|;
    var u := t[n..];
    var k := RunLen(Spaces, u);
    assert u[|seg| - 1 - n] == '}';
    assert k <= |seg| - 1 - n;
    assert u[k..][0] == t[n + k] == seg[n + k] && seg[n + k] in seg;
    MatchLitMiss(":", AfterKey(keyword), u[k..]);
  }

  /** `allow: [` is not a group: no brace follows. */
  lemma NoGroup(keyword: string, s: string)
    ensures Match(Run(Spaces, 0, false, Lit(":", AfterKey(keyword))), ":" + (" " + ("[" + s))) == None
  {
    hide Match;
    var u := "[" + s;
    var p := Run(Spaces, 0, false, Lit(keyword, Run(Spaces, 0, false, Lit(":", Run(Spaces, 0, false, BRACKETED)))));
    assert ":" + (" " + u) == "" + (":" + (" " + u));
    MatchGap("", ":", AfterKey(keyword), " " + u);
    assert u[0] == '[' && "{"[0] == '{';
    MatchRun(Spaces, 0, false, Lit("{", p), " ", u);
    MatchLitMiss("{", p, u);
  }
}
