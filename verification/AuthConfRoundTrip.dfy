/** `parse_auth_conf(render_auth_conf(...))`: the users come back exactly. */
module AuthConfRoundTrip {
  import opened Text
  import opened Patterns
  import opened AuthConf
  import opened AuthConfBlocks
  import opened AuthConfLists

  // ---------------------------------------------------------------------------------------------
  // One block
  // ---------------------------------------------------------------------------------------------

  lemma MatchKey(key: string, next: Pat, s: string)
    ensures Match(KeyPat(key, next), key + (":" + s)) == Match(next, s)
  {
    MatchLit(key, Run(Spaces, 0, false, Lit(":", next)), ":" + s);
    assert "" + (":" + s) == ":" + s;
    MatchGap("", ":", next, s);
  }

  /** What follows the key text: the permissions and the closing brace. */
  function PermRest(u: User): string { "{" + (PermBody(u) + "}") }

  lemma BlockIs(u: User)
    ensures BlockThen(u, "") == "{" + (KeyText(u) + PermRest(u))
  {
    var e := EndText(u) + ("}" + ("\n    " + ("}" + "")));
    assert e == EndText(u) + ("}" + "\n    ") + "}";
    var d := SUBSCRIBE_TEXT + ("{" + (ListText(u.sub) + ("}" + (EndText(u) + ("}" + "\n    ")))));
    assert SUBSCRIBE_TEXT + ("{" + (ListText(u.sub) + ("}" + (EndText(u) + ("}" + "\n    ") + "}")))) == d + "}";
    assert PUBLISH_TEXT + ("{" + (ListText(u.pub) + ("}" + (d + "}")))) == PUBLISH_TEXT + ("{" + (ListText(u.pub) + ("}" + d))) + "}";
  }

  lemma KeyTextIs(key: string, name: string, rest: string)
    ensures "{" + ("\n      nkey: \"" + key + "\"\n      # " + name + "\n      permissions: " + rest)
            == "{\n      " + ("nkey" + (":" + (" " + ("\"" + (key + ("\"" + ("\n      # " + name + "\n      permissions: " + rest)))))))
  {
    assert "\n      nkey: \"" == "\n      " + ("nkey" + (":" + (" " + "\"")));
    assert "\"\n      # " == "\"" + "\n      # ";
    assert "{" + "\n      " == "{\n      ";
    var x := "\n      # " + name + "\n      permissions: " + rest;
    assert "\"\n      # " + name + "\n      permissions: " + rest == "\"" + x;
    assert "\n      nkey: \"" + key + "\"\n      # " + name + "\n      permissions: " + rest
           == "\n      nkey: \"" + (key + ("\"\n      # " + name + "\n      permissions: " + rest));
  }

  lemma ReadKey(key: string, x: string)
    requires key != "" && Safe(key)
    ensures Cap(Search(NKEY, "{\n      " + ("nkey" + (":" + (" " + ("\"" + (key + ("\"" + x)))))))) == key
  {
    hide Match, Search;
    var close := Lit("\"", Done);
    var capture := Run(Except('"'), 1, true, close);
    var next := Run(Spaces, 0, false, Lit("\"", capture));
    var s := " " + ("\"" + (key + ("\"" + x)));
    MatchKey("nkey", next, s);
    MatchGap(" ", "\"", capture, key + ("\"" + x));
    assert ("\"" + x)[0] == '"';
    MatchRun(Except('"'), 1, true, close, key, "\"" + x);
    MatchLit("\"", Done, x);
    KeepDone(key, x);
    SearchAtKey("nkey", next, "{\n      ", s);
  }

  lemma KeepDone(cap: string, s: string)
    ensures Keep(cap, Match(Done, s)) == Some(Hit(s, [cap]))
  {
    assert [cap] + [] == [cap];
  }

  lemma SearchAtKey(key: string, next: Pat, junk: string, s: string)
    requires key != "" && key[0] !in junk
    requires Match(KeyPat(key, next), key + (":" + s)).Some?
    ensures Search(KeyPat(key, next), junk + (key + (":" + s))) == Match(KeyPat(key, next), key + (":" + s))
  {
    SkipChars(key, Run(Spaces, 0, false, Lit(":", next)), junk, key + (":" + s));
  }

  lemma ReadName(key: string, name: string, x: string)
    requires name != "" && Safe(name) && Safe(key)
    ensures Cap(Search(COMMENT, "{\n      nkey: \"" + key + "\"\n      " + ("#" + (" " + (name + ("\n" + x)))))) == name
  {
    hide Search, Match;
    var gap := Run(Spaces, 1, false, Run(NonSpaces, 1, true, Done));
    var t := " " + (name + ("\n" + x));
    NoHashBefore(key);
    assert "#"[0] == '#';
    SkipChars("#", gap, "{\n      nkey: \"" + key + "\"\n      ", "#" + t);
    MatchComment(name, x);
    SearchHere(COMMENT, "#" + t);
  }

  lemma NoHashBefore(key: string)
    requires Safe(key)
    ensures '#' !in "{\n      nkey: \"" + key + "\"\n      "
  {
    assert '#' !in key;
    assert '#' !in "{\n      nkey: \"" && '#' !in "\"\n      ";
  }

  lemma MatchComment(name: string, x: string)
    requires name != "" && Safe(name)
    ensures Match(COMMENT, "#" + (" " + (name + ("\n" + x)))) == Some(Hit("\n" + x, [name]))
  {
    hide Match;
    var words := Run(NonSpaces, 1, true, Done);
    assert (name + ("\n" + x))[0] == name[0] && !Structural(name[0]);
    assert ("\n" + x)[0] == '\n';
    MatchLit("#", Run(Spaces, 1, false, words), " " + (name + ("\n" + x)));
    MatchRun(Spaces, 1, false, words, " ", name + ("\n" + x));
    MatchRun(NonSpaces, 1, true, Done, name, "\n" + x);
    KeepDone(name, "\n" + x);
  }

  /** Every text before a colon in a block ends in something other than the key looked for. */
  lemma SkipTo(key: string, next: Pat, seg: string, s: string)
    requires key != "" && ':' !in key && ':' !in seg
    requires seg != "" && !IsSpace(seg[|seg| - 1]) && seg[|seg| - 1] != key[|key| - 1]
    ensures Search(KeyPat(key, next), seg + (":" + s)) == Search(KeyPat(key, next), s)
  {
    assert |key| <= |seg| ==> seg[|seg| - |key|..][|key| - 1] == seg[|seg| - 1];
    SegSkip(key, next, seg, s);
    assert seg + ":" + s == seg + (":" + s);
  }

  lemma HitAt(key: string, next: Pat, pre: string, s: string)
    requires key != "" && ':' !in key && ':' !in pre && !IsSpace(key[|key| - 1])
    requires Match(next, s).Some?
    ensures Search(KeyPat(key, next), pre + (key + (":" + s))) == Match(next, s)
  {
    hide Match, Search;
    MatchKey(key, next, s);
    assert key + ":" + s == key + (":" + s);
    SegHit(key, next, pre, s);
    assert pre + key + ":" + s == pre + (key + (":" + s));
  }

  const PERMS_NEXT := Run(Spaces, 0, false, Lit("{", ToLast('}', Done)))

  lemma MatchPerms(perm: string)
    ensures Match(PERMS_NEXT, " " + ("{" + (perm + "}"))) == Some(Hit("", [perm]))
  {
    MatchGap(" ", "{", ToLast('}', Done), perm + "}");
    assert perm + "}" == perm + (['}'] + "");
    MatchToLast('}', Done, perm, "");
    KeepDone(perm, "");
  }

  lemma KeyNoColon(key: string, name: string)
    requires Safe(name) && Safe(key)
    ensures ':' !in " \"" + key + "\"\n      # " + name + "\n      "
  {
    assert ':' !in " \"" && ':' !in "\"\n      # " && ':' !in "\n      ";
    assert ':' !in key && ':' !in name;
  }

  lemma ReadPerms(pre: string, perm: string)
    requires ':' !in pre
    ensures Cap(Search(PERMS, "{\n      nkey" + (":" + (pre + ("permissions" + (":" + (" " + ("{" + (perm + "}"))))))))) == perm
  {
    MatchPerms(perm);
    hide Search, Match;
    var s := " " + ("{" + (perm + "}"));
    assert ':' !in "permissions" && "permissions"[10] == 's' && |"permissions"| == 11;
    HitAt("permissions", PERMS_NEXT, pre, s);
    SkipNkey(pre + ("permissions" + (":" + s)));
  }

  lemma SkipNkey(s: string)
    ensures Search(PERMS, "{\n      nkey" + (":" + s)) == Search(PERMS, s)
  {
    var seg := "{\n      nkey";
    assert ':' !in seg && seg[|seg| - 1] == 'y';
    assert ':' !in "permissions" && "permissions"[10] == 's' && |"permissions"| == 11;
    hide Search;
    SkipTo("permissions", PERMS_NEXT, seg, s);
  }

  // ---------------------------------------------------------------------------------------------
  // The permissions text
  // ---------------------------------------------------------------------------------------------

  /** What follows the publish group, and what follows the subscribe group. */
  function SubRest(u: User): string { SUBSCRIBE_TEXT + ("{" + (ListText(u.sub) + ("}" + TailRest(u)))) }

  function TailRest(u: User): string { EndText(u) + ("}" + "\n    ") }

  lemma PermBodyIs(u: User)
    ensures PermBody(u) == PUBLISH_TEXT + ("{" + (ListText(u.pub) + ("}" + SubRest(u))))
  {
  }

  /** One indented `word: { ... }` group. */
  lemma GroupStep(word: string, gap: string, items: seq<string>, s: string)
    requires word != "" && All(WordChars, word) && AllSpaces(gap) && forall g | g in items :: Safe(g)
    ensures FindAll(ListPat("allow"), "\n        " + (word + (":" + (gap + ("{" + (ListText(items) + ("}" + s)))))))
            == (if items != [] then [[word, QuotedList(items)]] else []) + FindAll(ListPat("allow"), s)
  {
    hide FindAll, Match, ListText, QuotedList;
    var indent := "\n        ";
    assert forall k | 0 <= k < |indent| :: !IsWord(indent[k]);
    SkipNonWord(Run(Spaces, 0, false, Lit(":", AfterKey("allow"))), indent, word + (":" + (gap + ("{" + (ListText(items) + ("}" + s))))));
    ListStep(word, gap, items, s);
  }

  lemma DenyGroupStep(word: string, gap: string, items: seq<string>, s: string)
    requires word != "" && All(WordChars, word) && AllSpaces(gap) && forall g | g in items :: Safe(g)
    ensures FindAll(ListPat("deny"), "\n        " + (word + (":" + (gap + ("{" + (ListText(items) + ("}" + s)))))))
            == (if items == [] then [[word, "\">\""]] else []) + FindAll(ListPat("deny"), s)
  {
    hide FindAll, Match, ListText, QuotedList;
    var indent := "\n        ";
    assert forall k | 0 <= k < |indent| :: !IsWord(indent[k]);
    SkipNonWord(Run(Spaces, 0, false, Lit(":", AfterKey("deny"))), indent, word + (":" + (gap + ("{" + (ListText(items) + ("}" + s))))));
    DenyListStep(word, gap, items, s);
  }

  /** The permissions text as the scans for groups read it. */
  lemma PermShape(u: User)
    ensures PermBody(u) == "\n        " + ("publish" + (":" + ("   " + ("{" + (ListText(u.pub) + ("}" + SubRest(u)))))))
    ensures SubRest(u) == "\n        " + ("subscribe" + (":" + (" " + ("{" + (ListText(u.sub) + ("}" + TailRest(u)))))))
  {
    hide ListText, QuotedList;
    PermBodyIs(u);
    assert PUBLISH_TEXT + ("{" + (ListText(u.pub) + ("}" + SubRest(u))))
           == "\n        " + ("publish" + (":" + ("   " + ("{" + (ListText(u.pub) + ("}" + SubRest(u))))))) by {
      assert PUBLISH_TEXT == "\n        " + ("publish" + (":" + "   "));
    }
    assert SubRest(u) == "\n        " + ("subscribe" + (":" + (" " + ("{" + (ListText(u.sub) + ("}" + TailRest(u))))))) by {
      assert SUBSCRIBE_TEXT == "\n        " + ("subscribe" + (":" + " "));
    }
  }

  lemma Groups(u: User)
    requires SafeUser(u)
    ensures FindAll(ListPat("allow"), PermBody(u))
            == (if u.pub != [] then [["publish", QuotedList(u.pub)]] else [])
               + ((if u.sub != [] then [["subscribe", QuotedList(u.sub)]] else []) + [])
  {
    hide FindAll, Match, ListText, QuotedList, PermBody, SubRest, TailRest;
    PermShape(u);
    assert All(WordChars, "publish") && All(WordChars, "subscribe");
    GroupStep("publish", "   ", u.pub, SubRest(u));
    GroupStep("subscribe", " ", u.sub, TailRest(u));
    TailHasNoGroup(u, "allow");
  }

  lemma DenyGroups(u: User)
    requires SafeUser(u)
    ensures FindAll(ListPat("deny"), PermBody(u))
            == (if u.pub == [] then [["publish", "\">\""]] else [])
               + ((if u.sub == [] then [["subscribe", "\">\""]] else []) + [])
  {
    hide FindAll, Match, ListText, QuotedList, PermBody, SubRest, TailRest;
    PermShape(u);
    assert All(WordChars, "publish") && All(WordChars, "subscribe");
    DenyGroupStep("publish", "   ", u.pub, SubRest(u));
    DenyGroupStep("subscribe", " ", u.sub, TailRest(u));
    TailHasNoGroup(u, "deny");
  }

  lemma TailHasNoGroup(u: User, keyword: string)
    ensures FindAll(ListPat(keyword), TailRest(u)) == []
  {
    TailNoBrace(u);
    hide TailRest, FindAll;
    assert '{' in "{";
    assert Needs(AfterKey(keyword), '{');
    assert Needs(Lit(":", AfterKey(keyword)), '{');
    assert Needs(ListPat(keyword), '{');
    FindNone(ListPat(keyword), '{', TailRest(u));
  }

  lemma TailNoBrace(u: User)
    ensures '{' !in TailRest(u)
  {
    var w := if u.allowResponses then "true" else "false";
    assert '{' !in "\n        allow_responses: " && '{' !in w && '{' !in "\n      " && '{' !in "}" && '{' !in "\n    ";
  }

  /** Both grant sets come back. */
  lemma ReadLists(u: User)
    requires SafeUser(u)
    ensures AllowSet(PermBody(u), "publish") == (set g | g in u.pub)
    ensures AllowSet(PermBody(u), "subscribe") == (set g | g in u.sub)
  {
    hide FindAll, Match, CleanItems, QuotedList, PermBody;
    Groups(u);
    assert "publish"[0] != "subscribe"[0];
    if u.pub != [] {
      ListReadsBack(u.pub);
    }
    if u.sub != [] {
      ListReadsBack(u.sub);
    }
    var p, s := ["publish", QuotedList(u.pub)], ["subscribe", QuotedList(u.sub)];
    FirstOf(p, s, u.pub != [], u.sub != [], "publish");
    FirstOf(p, s, u.pub != [], u.sub != [], "subscribe");
  }

  /** The deny lists of a rendered block: everything, exactly where there is no grant. */
  lemma ReadDenials(u: User)
    requires SafeUser(u)
    ensures DenyList(PermBody(u), "publish") == if u.pub == [] then [">"] else []
    ensures DenyList(PermBody(u), "subscribe") == if u.sub == [] then [">"] else []
  {
    hide FindAll, Match, CleanItems, PermBody;
    DenyGroups(u);
    assert "publish"[0] != "subscribe"[0];
    CleanGt();
    var p, s := ["publish", "\">\""], ["subscribe", "\">\""];
    FirstOf(p, s, u.pub == [], u.sub == [], "publish");
    FirstOf(p, s, u.pub == [], u.sub == [], "subscribe");
  }

  lemma CleanGt()
    ensures CleanItems(Split("\">\"", ',')) == [">"]
  {
    assert Safe(">");
    assert Quoted(">") == "\">\"";
    assert QuotedAll([">"]) == ["\">\""];
    SplitNone("\">\"", ',');
    CleanQuoted([">"]);
  }

  lemma FirstOf(p: seq<string>, s: seq<string>, hasP: bool, hasS: bool, word: string)
    requires |p| == 2 && |s| == 2 && p[0] != s[0]
    ensures FirstList((if hasP then [p] else []) + ((if hasS then [s] else []) + []), word)
            == if hasP && word == p[0] then CleanItems(Split(p[1], ','))
               else if hasS && word == s[0] then CleanItems(Split(s[1], ','))
               else []
  {
    hide CleanItems, Split;
    var hits := (if hasP then [p] else []) + ((if hasS then [s] else []) + []);
    assert FirstList([], word) == [];
    assert [s][1..] == [];
    assert FirstList([s], word) == if word == s[0] then CleanItems(Split(s[1], ',')) else [];
    if hasP && hasS {
      assert hits == [p, s] && hits[1..] == [s] && hits[1..][1..] == [];
    } else if hasP {
      assert hits == [p] && hits[1..] == [];
    } else if hasS {
      assert hits == [s] && hits[1..] == [];
    } else {
      assert hits == [];
    }
  }

  // ---------------------------------------------------------------------------------------------
  // `allow_responses`
  // ---------------------------------------------------------------------------------------------

  const RESP_NEXT := Run(Spaces, 0, false, Either("true", "false", Done))

  /** A group's text after the colon of its list keyword. */
  function MidText(items: seq<string>): string { if items != [] then " [" + QuotedList(items) + "] }" else " [\">\"] }" }

  lemma MidNoColon(items: seq<string>)
    requires forall g | g in items :: Safe(g)
    ensures ':' !in MidText(items)
  {
    if items != [] {
      ListLacks(items);
    }
  }

  lemma GroupText(gap: string, items: seq<string>, t: string)
    ensures gap + ("{" + (ListText(items) + ("}" + t)))
            == (gap + "{" + (if items != [] then " allow" else " deny")) + (":" + (MidText(items) + t))
  {
    if items != [] {
      var q := QuotedList(items);
      assert " allow: [" + q + "] " + ("}" + t) == " allow" + (":" + (" [" + q + "] }" + t)) by {
        assert " allow: [" == " allow" + (":" + " [");
        assert "] " + ("}" + t) == "] }" + t;
      }
    } else {
      assert " deny: [\">\"] " + ("}" + t) == " deny" + (":" + (" [\">\"] }" + t));
    }
  }

  lemma SkipGroup(gap: string, items: seq<string>, t: string)
    requires ':' !in gap
    ensures Search(ALLOW_RESPONSES, gap + ("{" + (ListText(items) + ("}" + t)))) == Search(ALLOW_RESPONSES, MidText(items) + t)
  {
    GroupText(gap, items, t);
    var word := if items != [] then " allow" else " deny";
    var seg := gap + "{" + word;
    assert ':' !in word && ':' !in "{";
    assert seg[|seg| - 1] == word[|word| - 1];
    SkipResp(seg, MidText(items) + t);
  }

  lemma SkipResp(seg: string, s: string)
    requires ':' !in seg && seg != "" && !IsSpace(seg[|seg| - 1]) && seg[|seg| - 1] != 's'
    ensures Search(ALLOW_RESPONSES, seg + (":" + s)) == Search(ALLOW_RESPONSES, s)
  {
    assert ':' !in "allow_responses" && |"allow_responses"| == 15 && "allow_responses"[14] == 's';
    hide Search;
    SkipTo("allow_responses", RESP_NEXT, seg, s);
  }

  lemma HitResp(pre: string, s: string)
    requires ':' !in pre && Match(RESP_NEXT, s).Some?
    ensures Search(ALLOW_RESPONSES, pre + ("allow_responses" + (":" + s))) == Match(RESP_NEXT, s)
  {
    assert ':' !in "allow_responses" && |"allow_responses"| == 15 && "allow_responses"[14] == 's';
    hide Search, Match;
    HitAt("allow_responses", RESP_NEXT, pre, s);
  }

  lemma MatchResp(word: string, s: string)
    requires word == "true" || word == "false"
    ensures Match(RESP_NEXT, " " + (word + s)) == Some(Hit(s, [word]))
  {
    var t := word + s;
    assert t[0] == word[0];
    MatchRun(Spaces, 0, false, Either("true", "false", Done), " ", t);
    assert t[..|word|] == word && t[|word|..] == s;
    if word == "false" {
      assert "true"[0] == 't';
      NotStart(t, "true");
    }
    KeepDone(word, s);
  }

  function RespWord(u: User): string { if u.allowResponses then "true" else "false" }

  lemma TailText(u: User)
    ensures TailRest(u) == "\n        " + ("allow_responses" + (":" + (" " + (RespWord(u) + ("\n      " + ("}" + "\n    "))))))
  {
    var w := RespWord(u);
    assert "\n        allow_responses: " == "\n        " + ("allow_responses" + (":" + " "));
    assert "\n        allow_responses: " + w + "\n      " + ("}" + "\n    ")
           == "\n        allow_responses: " + (w + ("\n      " + ("}" + "\n    ")));
  }

  lemma ReadResponses(u: User)
    requires SafeUser(u)
    ensures Cap(Search(ALLOW_RESPONSES, PermBody(u))) == RespWord(u)
  {
    MidNoColon(u.pub);
    MidNoColon(u.sub);
    hide Search, Match, ListText, MidText, SafeUser;
    ReadResponsesPub(u);
    ReadResponsesSub(u, MidText(u.pub));
    ReadResponsesEnd(u, MidText(u.sub));
  }

  lemma ReadResponsesPub(u: User)
    ensures Search(ALLOW_RESPONSES, PermBody(u)) == Search(ALLOW_RESPONSES, MidText(u.pub) + SubRest(u))
  {
    hide Search, ListText, MidText;
    PermBodyIs(u);
    var seg := "\n        publish";
    var a := "   " + ("{" + (ListText(u.pub) + ("}" + SubRest(u))));
    assert PUBLISH_TEXT == seg + (":" + "   ");
    hide SubRest;
    assert PUBLISH_TEXT + ("{" + (ListText(u.pub) + ("}" + SubRest(u)))) == seg + (":" + a);
    assert ':' !in seg && seg[|seg| - 1] == 'h';
    SkipResp(seg, a);
    SkipGroup("   ", u.pub, SubRest(u));
  }

  lemma ReadResponsesEnd(u: User, mid: string)
    requires ':' !in mid
    ensures Cap(Search(ALLOW_RESPONSES, mid + TailRest(u))) == RespWord(u)
  {
    var end := "\n      " + ("}" + "\n    ");
    var s := " " + (RespWord(u) + end);
    TailText(u);
    MatchResp(RespWord(u), end);
    hide Search, Match, TailRest, RespWord;
    PreNoColon(mid);
    HitResp(mid + "\n        ", s);
    ConcatAssoc(mid, "\n        ", "allow_responses" + (":" + s));
  }

  lemma PreNoColon(mid: string)
    requires ':' !in mid
    ensures ':' !in mid + "\n        "
  {
    assert ':' !in "\n        ";
  }

  lemma ReadResponsesSub(u: User, mid: string)
    requires ':' !in mid
    ensures Search(ALLOW_RESPONSES, mid + SubRest(u)) == Search(ALLOW_RESPONSES, MidText(u.sub) + TailRest(u))
  {
    hide Search, ListText, MidText;
    var b := " " + ("{" + (ListText(u.sub) + ("}" + TailRest(u))));
    var seg := mid + "\n        subscribe";
    assert ':' !in "\n        subscribe";
    assert seg[|seg| - 1] == 'e';
    assert SUBSCRIBE_TEXT == "\n        subscribe" + (":" + " ");
    assert mid + SubRest(u) == seg + (":" + b);
    SkipResp(seg, b);
    SkipGroup(" ", u.sub, TailRest(u));
  }

  // ---------------------------------------------------------------------------------------------
  // A whole block
  // ---------------------------------------------------------------------------------------------

  function Expected(u: User): ParsedUser {
    ParsedUser(u.key, (set g | g in u.pub), (set g | g in u.sub), u.allowResponses, u.name)
  }

  /** The block in the three groupings the readers use. */
  lemma BlockShapes(u: User)
    ensures var b := BlockThen(u, "");
            var x := "\n      # " + u.name + "\n      permissions: " + PermRest(u);
            && b == "{\n      " + ("nkey" + (":" + (" " + ("\"" + (u.key + ("\"" + x))))))
            && b == "{\n      nkey: \"" + u.key + "\"\n      " + ("#" + (" " + (u.name + ("\n" + ("      permissions: " + PermRest(u))))))
            && b == "{\n      nkey" + (":" + (" \"" + u.key + "\"\n      # " + u.name + "\n      "
                                             + ("permissions" + (":" + (" " + ("{" + (PermBody(u) + "}")))))))
  {
    BlockIs(u);
    KeyTextIs(u.key, u.name, PermRest(u));
    ShapeName(u.key, u.name, PermRest(u));
    ShapePerms(u.key, u.name, PermRest(u));
    hide BlockThen, PermBody;
    assert KeyText(u) == "\n      nkey: \"" + u.key + "\"\n      # " + u.name + "\n      permissions: ";
  }

  lemma Nest(a: string, k: string, b: string, n: string, c: string, r: string)
    ensures a + k + b + n + c + r == a + (k + (b + (n + (c + r))))
  {
  }

  lemma ShapeName(key: string, name: string, rest: string)
    ensures "{" + ("\n      nkey: \"" + key + "\"\n      # " + name + "\n      permissions: " + rest)
            == "{\n      nkey: \"" + key + "\"\n      " + ("#" + (" " + (name + ("\n" + ("      permissions: " + rest)))))
  {
    var y := "\n" + ("      permissions: " + rest);
    Nest("\n      nkey: \"", key, "\"\n      # ", name, "\n      permissions: ", rest);
    assert "\n      permissions: " + rest == y by {
      assert "\n      permissions: " == "\n" + "      permissions: ";
    }
    assert "\"\n      # " + (name + y) == "\"\n      " + ("#" + (" " + (name + y))) by {
      assert "\"\n      # " == "\"\n      " + ("#" + " ");
    }
    var z := "#" + (" " + (name + y));
    ShapeNameHead(key, z);
  }

  lemma ShapeNameHead(key: string, z: string)
    ensures "{" + ("\n      nkey: \"" + (key + ("\"\n      " + z))) == "{\n      nkey: \"" + key + "\"\n      " + z
  {
    assert "{" + "\n      nkey: \"" == "{\n      nkey: \"";
  }

  lemma ShapePerms(key: string, name: string, rest: string)
    ensures "{" + ("\n      nkey: \"" + key + "\"\n      # " + name + "\n      permissions: " + rest)
            == "{\n      nkey" + (":" + (" \"" + key + "\"\n      # " + name + "\n      " + ("permissions" + (":" + (" " + rest)))))
  {
    var y := "permissions" + (":" + (" " + rest));
    Nest("\n      nkey: \"", key, "\"\n      # ", name, "\n      permissions: ", rest);
    Nest(" \"", key, "\"\n      # ", name, "\n      ", y);
    assert "\n      permissions: " + rest == "\n      " + y by {
      assert "\n      permissions: " == "\n      " + ("permissions" + (":" + " "));
    }
    ShapePermsHead(key + ("\"\n      # " + (name + ("\n      " + y))));
  }

  lemma ShapePermsHead(z: string)
    ensures "{" + ("\n      nkey: \"" + z) == "{\n      nkey" + (":" + (" \"" + z))
  {
    assert "{" + "\n      nkey: \"" == "{\n      nkey" + (":" + " \"");
  }

  /** Parsing a rendered block gives its user back. */
  lemma ReadBlock(u: User)
    requires SafeUser(u)
    ensures ParseUser(BlockThen(u, "")) == Expected(u)
    ensures Cap(Search(PERMS, BlockThen(u, ""))) == PermBody(u)
  {
    BlockShapes(u);
    var rest := PermRest(u);
    var x := "\n      # " + u.name + "\n      permissions: " + rest;
    ReadKey(u.key, x);
    ReadName(u.key, u.name, "      permissions: " + rest);
    KeyNoColon(u.key, u.name);
    ReadPerms(" \"" + u.key + "\"\n      # " + u.name + "\n      ", PermBody(u));
    hide Search, PermBody, AllowSet, BlockThen, SafeUser, PermRest;
    ReadLists(u);
    ReadResponses(u);
    assert "true"[0] != "false"[0];
  }
}
