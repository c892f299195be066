/** The whole `auth.conf`: what parsing a rendered file gives, and what the parsed file permits. */
module AuthConfTheorems {
  import opened Text
  import opened Patterns
  import opened Nats
  import opened AclMatrix
  import opened AuthConf
  import opened AuthConfBlocks
  import opened AuthConfLists
  import opened AuthConfRoundTrip

  // ---------------------------------------------------------------------------------------------
  // The text as segments between colons
  // ---------------------------------------------------------------------------------------------

  const SEG_DEFAULT := HEADER_CMD + "\nauthorization {\n  "
  const SEG_USERS := " [\">\"] }\n  }\n  "

  /** Everything up to the opening bracket of the users list, and then `rest`. */
  function FromDefaults(rest: string): string {
    " {\n    publish" + (":" + ("   { deny" + (":" + (" [\">\"] }\n    subscribe" + (":" + (" { deny" + (":"
    + (SEG_USERS + ("users" + (":" + (" [" + rest)))))))))))
  }

  function Opening(rest: string): string {
    HEADER_SPEC + (":" + (HEADER_TODO + (":" + (HEADER_EDIT + (":"
    + (SEG_DEFAULT + ("default_permissions" + (":" + FromDefaults(rest)))))))))
  }

  const CLOSING := "]" + "\n}\n"

  lemma BlockTail(u: User, tail: string)
    ensures BlockThen(u, "") + tail == BlockThen(u, tail)
  {
    hide KeyText, ListText, EndText;
    var e := EndText(u) + ("}" + ("\n    " + "}"));
    assert "}" + "" == "}";
    assert EndText(u) + ("}" + ("\n    " + ("}" + tail))) == e + tail;
    var d := SUBSCRIBE_TEXT + ("{" + (ListText(u.sub) + ("}" + e)));
    assert SUBSCRIBE_TEXT + ("{" + (ListText(u.sub) + ("}" + (e + tail)))) == d + tail;
    var c := PUBLISH_TEXT + ("{" + (ListText(u.pub) + ("}" + d)));
    assert PUBLISH_TEXT + ("{" + (ListText(u.pub) + ("}" + (d + tail)))) == c + tail;
    assert "{" + (KeyText(u) + ("{" + (c + tail))) == "{" + (KeyText(u) + ("{" + c)) + tail;
  }

  lemma {:induction false} BodyIs(us: seq<User>)
    ensures "\n" + (Join("\n", Emitted(us) + ["  ]", "}"]) + "\n") == Body(us) + CLOSING
  {
    hide BlockThen;
    if us == [] {
      assert Emitted(us) + ["  ]", "}"] == ["  ]", "}"];
      assert Join("\n", ["  ]", "}"]) == "  ]" + "\n" + "}";
    } else {
      var rest := Emitted(us[1..]) + ["  ]", "}"];
      assert Emitted(us) == [EmitUser(us[0])] + Emitted(us[1..]);
      assert Emitted(us) + ["  ]", "}"] == [EmitUser(us[0])] + rest;
      JoinConcat("\n", [EmitUser(us[0])], rest);
      BodyIs(us[1..]);
      BodyCons(us[0], Join("\n", rest), Body(us[1..]));
    }
  }

  lemma BodyCons(u: User, rest: string, body: string)
    requires "\n" + (rest + "\n") == body + CLOSING
    ensures "\n" + ((EmitUser(u) + "\n" + rest) + "\n") == ("\n    " + BlockThen(u, body)) + CLOSING
  {
    BlockTail(u, body);
    hide BlockThen;
    var b := BlockThen(u, "");
    assert "\n" + (("    " + b + "\n" + rest) + "\n") == ("\n" + ("    " + b)) + ("\n" + (rest + "\n"));
    assert "\n" + ("    " + b) == "\n    " + b;
    assert ("\n    " + b) + (body + CLOSING) == ("\n    " + (b + body)) + CLOSING;
  }

  lemma JoinCons(a: string, rest: seq<string>, r: string)
    requires rest != []
    ensures Join("\n", [a] + rest) + r == a + ("\n" + (Join("\n", rest) + r))
  {
    JoinConcat("\n", [a], rest);
    assert Join("\n", [a]) == a;
  }

  /** The opening lines, joined, are the opening segments. */
  lemma OpeningIs(r: string)
    ensures Join("\n", OPENING) + r == Opening(r)
  {
    var l1, l2, l3 := "authorization {", "  default_permissions: {", "    publish:   { deny: [\">\"] }";
    var l4, l5, l6 := "    subscribe: { deny: [\">\"] }", "  }", "  users: [";
    var t6 := [l6];
    var t5 := [l5] + t6;
    var t4 := [l4] + t5;
    var t3 := [l3] + t4;
    var t2 := [l2] + t3;
    var t1 := [l1] + t2;
    assert OPENING == [HEADER] + t1;
    JoinCons(HEADER, t1, r);
    JoinCons(l1, t2, r);
    JoinCons(l2, t3, r);
    JoinCons(l3, t4, r);
    JoinCons(l4, t5, r);
    JoinCons(l5, t6, r);
    OpeningLines(r);
    assert Join("\n", t6) == l6;
  }

  lemma OpeningLines(r: string)
    ensures HEADER + ("\n" + ("authorization {" + ("\n" + ("  default_permissions: {" + ("\n"
            + ("    publish:   { deny: [\">\"] }" + ("\n" + ("    subscribe: { deny: [\">\"] }" + ("\n"
            + ("  }" + ("\n" + ("  users: [" + r))))))))))))
            == Opening(r)
  {
    var u := "users" + (":" + (" [" + r));
    assert "  users: [" + r == "  " + u by { assert "  users: [" == "  " + ("users" + (":" + " [")); }
    var s := " { deny" + (":" + (SEG_USERS + u));
    assert "    subscribe: { deny: [\">\"] }" + ("\n" + ("  }" + ("\n" + ("  " + u)))) == "    subscribe" + (":" + s) by {
      SubscribeLine(u);
    }
    var p := "   { deny" + (":" + (" [\">\"] }\n    subscribe" + (":" + s)));
    assert "    publish:   { deny: [\">\"] }" + ("\n" + ("    subscribe" + (":" + s))) == "    publish" + (":" + p) by {
      PublishLine(":" + s);
    }
    var d := "default_permissions" + (":" + (" {\n    publish" + (":" + p)));
    assert "  default_permissions: {" + ("\n" + ("    publish" + (":" + p))) == "  " + d by {
      DefaultLine(":" + p);
    }
    HeaderLine(d);
  }

  lemma SubscribeLine(u: string)
    ensures "    subscribe: { deny: [\">\"] }" + ("\n" + ("  }" + ("\n" + ("  " + u))))
            == "    subscribe" + (":" + (" { deny" + (":" + (SEG_USERS + u))))
  {
    assert "    subscribe: { deny: [\">\"] }" == "    subscribe" + (":" + (" { deny" + (":" + " [\">\"] }")));
    assert SEG_USERS == " [\">\"] }" + ("\n" + ("  }" + ("\n" + "  ")));
  }

  lemma PublishLine(s: string)
    ensures "    publish:   { deny: [\">\"] }" + ("\n" + ("    subscribe" + s))
            == "    publish" + (":" + ("   { deny" + (":" + (" [\">\"] }\n    subscribe" + s))))
  {
    assert "    publish:   { deny: [\">\"] }" == "    publish" + (":" + ("   { deny" + (":" + " [\">\"] }")));
    assert " [\">\"] }\n    subscribe" == " [\">\"] }" + ("\n" + "    subscribe");
  }

  lemma DefaultLine(p: string)
    ensures "  default_permissions: {" + ("\n" + ("    publish" + p)) == "  " + ("default_permissions" + (":" + (" {\n    publish" + p)))
  {
    DefaultHead();
    DefaultTail();
    LineGroup("  ", "default_permissions", ":", " {", "\n", "    publish", p);
  }

  lemma DefaultHead()
    ensures "  default_permissions: {" == "  " + ("default_permissions" + (":" + " {"))
  {
  }

  lemma DefaultTail()
    ensures " {\n    publish" == " {" + ("\n" + "    publish")
  {
  }

  lemma LineGroup(a: string, b: string, c: string, d: string, e: string, f: string, p: string)
    ensures (a + (b + (c + d))) + (e + (f + p)) == a + (b + (c + ((d + (e + f)) + p)))
  {
  }

  lemma HeaderLine(d: string)
    ensures HEADER + ("\n" + ("authorization {" + ("\n" + ("  " + d))))
            == HEADER_SPEC + (":" + (HEADER_TODO + (":" + (HEADER_EDIT + (":" + (SEG_DEFAULT + d))))))
  {
    HeaderRegroup(HEADER_SPEC, HEADER_TODO, HEADER_EDIT, HEADER_CMD, d);
  }

  lemma HeaderRegroup(a: string, b: string, c: string, e: string, d: string)
    ensures (a + ":" + b + ":" + c + ":" + e) + ("\n" + ("authorization {" + ("\n" + ("  " + d))))
            == a + (":" + (b + (":" + (c + (":" + ((e + "\nauthorization {\n  ") + d))))))
  {
    assert "\n" + ("authorization {" + ("\n" + "  ")) == "\nauthorization {\n  ";
    assert "\n" + ("authorization {" + ("\n" + ("  " + d))) == "\nauthorization {\n  " + d;
  }

  lemma JoinParts(o: seq<string>, e: seq<string>, c: seq<string>)
    requires o != [] && c != []
    ensures Join("\n", o + e + c) + "\n" == Join("\n", o) + ("\n" + (Join("\n", e + c) + "\n"))
  {
    assert o + e + c == o + (e + c);
    JoinConcat("\n", o, e + c);
    assert Join("\n", o) + "\n" + Join("\n", e + c) + "\n" == Join("\n", o) + ("\n" + (Join("\n", e + c) + "\n"));
  }

  lemma ConfShape(us: seq<User>)
    ensures ConfText(us) == Opening(Body(us) + CLOSING)
  {
    hide Opening, Body, Emitted, Join;
    JoinParts(OPENING, Emitted(us), ["  ]", "}"]);
    BodyIs(us);
    OpeningIs(Body(us) + CLOSING);
  }

  // ---------------------------------------------------------------------------------------------
  // Finding the users list
  // ---------------------------------------------------------------------------------------------

  const USERS_NEXT := Run(Spaces, 0, false, Lit("[", ToLast(']', Done)))

  lemma SpecNoColon()
    ensures ':' !in HEADER_SPEC
  {
    assert ':' !in "# NATS nkey authorization — " && ':' !in "generated by factory-acl genkeys\n# Spec";
  }

  lemma TodoStart()
    ensures ':' !in " artifacts/specs/706-per-role-nkeys-acls-"
  {
  }

  lemma TodoNoColon()
    ensures ':' !in HEADER_TODO
  {
    TodoStart();
    assert ':' !in "spec" && ':' !in ".mdx\n# TODO(ADR-045)";
  }

  const EDIT_ONE := " ACL for roxabi-nats SDK identities" + " intentionally omitted\n"
  const EDIT_TWO := "#                until the SDK " + "extraction lands — rerun this script then.\n"
  const EDIT_THREE := "# DO NOT edit manually — regenerate with"

  lemma EditOne()
    ensures ':' !in EDIT_ONE
  {
    assert ':' !in " ACL for roxabi-nats SDK identities" && ':' !in " intentionally omitted\n";
  }

  lemma EditParts()
    ensures ':' !in EDIT_ONE && ':' !in EDIT_THREE
  {
    EditOne();
    assert ':' !in "# DO NOT edit manually — regenerate with";
  }

  lemma EditMiddle()
    ensures ':' !in EDIT_TWO
  {
    assert ':' !in "#                until the SDK " && ':' !in "extraction lands — rerun this script then.\n";
  }

  lemma EditIs()
    ensures HEADER_EDIT == EDIT_ONE + EDIT_TWO + EDIT_THREE
  {
    ConcatAssoc(EDIT_ONE, "#                until the SDK ", "extraction lands — rerun this script then.\n");
  }

  lemma NoColonThree(a: string, b: string, c: string)
    requires ':' !in a && ':' !in b && ':' !in c
    ensures ':' !in a + b + c
  {
  }

  lemma EditNoColon()
    ensures ':' !in HEADER_EDIT
  {
    EditParts();
    EditMiddle();
    EditIs();
    NoColonThree(EDIT_ONE, EDIT_TWO, EDIT_THREE);
  }

  lemma DefaultNoColon()
    ensures ':' !in SEG_DEFAULT
  {
    assert ':' !in " sudo env \"PATH=$PATH\"" && ':' !in " factory-acl genkeys --regenerate";
    assert ':' !in "\nauthorization {\n  ";
  }

  lemma HeaderEnds()
    ensures |HEADER_SPEC| > 0 && HEADER_SPEC[|HEADER_SPEC| - 1] == 'c'
    ensures |HEADER_TODO| > 0 && HEADER_TODO[|HEADER_TODO| - 1] == ')'
    ensures |HEADER_EDIT| > 0 && HEADER_EDIT[|HEADER_EDIT| - 1] == 'h'
  {
  }

  /** The search for `users: [` passes every earlier colon. */
  lemma FindUsers(rest: string)
    requires Match(USERS_NEXT, " [" + rest).Some?
    ensures Search(USERS, Opening(rest)) == Match(USERS_NEXT, " [" + rest)
  {
    hide Search, Match;
    FindUsersHeader(SEG_DEFAULT + ("default_permissions" + (":" + FromDefaults(rest))));
    FindUsersDefaults(rest);
    SkipDefaultKey(FromDefaults(rest));
  }

  /** A segment a search for `key` passes. */
  predicate Passed(key: string, seg: string) {
    key != "" && ':' !in key && ':' !in seg && seg != "" && !IsSpace(seg[|seg| - 1]) && seg[|seg| - 1] != key[|key| - 1]
  }

  lemma PassThree(key: string, next: Pat, a: string, b: string, c: string, s: string)
    requires Passed(key, a) && Passed(key, b) && Passed(key, c)
    ensures Search(KeyPat(key, next), a + (":" + (b + (":" + (c + (":" + s)))))) == Search(KeyPat(key, next), s)
  {
    hide Search;
    SkipTo(key, next, c, s);
    SkipTo(key, next, b, c + (":" + s));
    SkipTo(key, next, a, b + (":" + (c + (":" + s))));
  }

  lemma HeaderPassed(key: string)
    requires key != "" && ':' !in key && key[|key| - 1] == 's'
    ensures Passed(key, HEADER_SPEC) && Passed(key, HEADER_TODO) && Passed(key, HEADER_EDIT)
  {
    SpecNoColon();
    TodoNoColon();
    EditNoColon();
    HeaderEnds();
  }

  lemma UsersKey()
    ensures "users" != "" && ':' !in "users" && |"users"| == 5 && "users"[3] == 'r' && "users"[4] == 's'
  {
  }

  lemma DefaultKey()
    ensures var key := "default_permissions"; key != "" && ':' !in key && |key| == 19 && key[17] == 'n' && key[18] == 's'
  {
  }

  lemma FindUsersHeader(s: string)
    ensures Search(USERS, HEADER_SPEC + (":" + (HEADER_TODO + (":" + (HEADER_EDIT + (":" + s))))))
            == Search(USERS, s)
  {
    UsersKey();
    HeaderPassed("users");
    hide Search, Passed;
    PassThree("users", USERS_NEXT, HEADER_SPEC, HEADER_TODO, HEADER_EDIT, s);
  }

  /** `default_permissions:` ends in the letter `s` too, but not in `users`. */
  lemma SkipDefaultKey(s: string)
    ensures Search(USERS, SEG_DEFAULT + ("default_permissions" + (":" + s))) == Search(USERS, s)
  {
    DefaultNoColon();
    DefaultKey();
    UsersKey();
    var key := "default_permissions";
    var seg := SEG_DEFAULT + key;
    hide Search;
    DefaultNotUsers(seg, SEG_DEFAULT, key);
    SegSkip("users", USERS_NEXT, seg, s);
    ConcatAssoc(SEG_DEFAULT, key, ":" + s);
    ConcatAssoc(seg, ":", s);
  }

  lemma DefaultNotUsers(seg: string, pre: string, key: string)
    requires seg == pre + key && |key| == 19 && key[18] == 's' && key[17] == 'n'
    requires ':' !in pre && ':' !in key
    ensures seg[|seg| - 1] == 's' && ':' !in seg && !EndsWith(seg, "users")
  {
    UsersKey();
    assert seg[|seg| - 5..][3] == seg[|seg| - 2] == key[17];
  }

  lemma FindUsersDefaults(rest: string)
    requires Match(USERS_NEXT, " [" + rest).Some?
    ensures Search(USERS, FromDefaults(rest)) == Match(USERS_NEXT, " [" + rest)
  {
    UsersKey();
    SegsPassed();
    assert ':' !in SEG_USERS;
    hide Search, Match, Passed;
    HitAt("users", USERS_NEXT, SEG_USERS, " [" + rest);
    PassFour("users", USERS_NEXT, " {\n    publish", "   { deny", " [\">\"] }\n    subscribe", " { deny",
             SEG_USERS + ("users" + (":" + (" [" + rest))));
  }

  lemma SegsPassed()
    ensures Passed("users", " {\n    publish") && Passed("users", "   { deny")
    ensures Passed("users", " [\">\"] }\n    subscribe") && Passed("users", " { deny")
  {
    UsersKey();
    var a, b, c, d := " {\n    publish", "   { deny", " [\">\"] }\n    subscribe", " { deny";
    assert ':' !in a && ':' !in b && ':' !in c && ':' !in d;
    assert a[|a| - 1] == 'h' && b[|b| - 1] == 'y' && c[|c| - 1] == 'e' && d[|d| - 1] == 'y';
  }

  lemma PassFour(key: string, next: Pat, a: string, b: string, c: string, d: string, s: string)
    requires Passed(key, a) && Passed(key, b) && Passed(key, c) && Passed(key, d)
    ensures Search(KeyPat(key, next), a + (":" + (b + (":" + (c + (":" + (d + (":" + s)))))))) == Search(KeyPat(key, next), s)
  {
    hide Search;
    SkipTo(key, next, d, s);
    PassThree(key, next, a, b, c, d + (":" + s));
  }

  /** The captured users block is exactly the text of the blocks. */
  lemma UsersBlock(us: seq<User>)
    ensures Cap(Search(USERS, ConfText(us))) == Body(us)
  {
    ConfShape(us);
    hide Body, ConfText, Search, Opening;
    var body := Body(us);
    MatchUsers(body);
    FindUsers(body + CLOSING);
  }

  lemma MatchUsers(body: string)
    ensures Match(USERS_NEXT, " [" + (body + CLOSING)) == Some(Hit("\n}\n", [body]))
  {
    BracketText(body);
    hide Match;
    assert ']' !in "\n}\n";
    MatchToBracket(body, "\n}\n");
  }

  lemma MatchToBracket(body: string, s: string)
    requires ']' !in s
    ensures Match(USERS_NEXT, " " + ("[" + (body + ([']'] + s)))) == Some(Hit(s, [body]))
  {
    hide Match;
    assert "["[0] == '[' && All(Spaces, " ");
    MatchGap(" ", "[", ToLast(']', Done), body + ([']'] + s));
    MatchToLast(']', Done, body, s);
    KeepDone(body, s);
  }

  lemma BracketText(body: string)
    ensures " [" + (body + CLOSING) == " " + ("[" + (body + ([']'] + "\n}\n")))
  {
    assert CLOSING == [']'] + "\n}\n";
    assert " [" == " " + "[";
  }

  // ---------------------------------------------------------------------------------------------
  // Round trip
  // ---------------------------------------------------------------------------------------------

  function ExpectedAll(us: seq<User>): seq<ParsedUser> { seq(|us|, i requires 0 <= i < |us| => Expected(us[i])) }

  lemma ParseBlocks(us: seq<User>)
    requires forall u | u in us :: SafeUser(u)
    ensures ParseAll(BlocksOf(us)) == ExpectedAll(us)
  {
    hide SafeUser, Expected, ParseUser, BlockThen;
    forall i | 0 <= i < |us|
      ensures ParseUser(BlocksOf(us)[i]) == Expected(us[i])
    {
      assert us[i] in us;
      ReadBlock(us[i]);
    }
  }

  /** Parsing a rendered file gives back the users, in order, with their keys, names, grant sets and
      `allow_responses`. */
  lemma UsersRoundTrip(us: seq<User>)
    requires forall u | u in us :: SafeUser(u)
    ensures ParseAuthConf(ConfText(us)).users == ExpectedAll(us)
  {
    hide Search, ConfText, SafeUser, ParseAll, BlocksOf, Body, ScanBlocks, DenyList;
    UsersBlock(us);
    ScanBody(us);
    ParseBlocks(us);
  }

  const DEFAULTS_NEXT := Run(Spaces, 0, false, Lit("{", Run(Except('}'), 0, true, Lit("}", Done))))

  const DEFAULTS_TEXT := "\n    publish:   { deny: [\">\"] "

  /** The lazy capture of the default permissions stops at the first closing brace, inside them. */
  lemma DefaultsBlock(us: seq<User>)
    ensures Cap(Search(DEFAULTS, ConfText(us))) == DEFAULTS_TEXT
  {
    ConfShape(us);
    hide Body, ConfText, Search, Opening;
    FindDefaults(Body(us) + CLOSING);
  }

  lemma FindDefaults(rest: string)
    ensures Cap(Search(DEFAULTS, Opening(rest))) == DEFAULTS_TEXT
  {
    DefaultNoColon();
    MatchDefaults(rest);
    DefaultKey();
    HeaderPassed("default_permissions");
    hide Search, Match, FromDefaults, Passed;
    HitAt("default_permissions", DEFAULTS_NEXT, SEG_DEFAULT, FromDefaults(rest));
    PassThree("default_permissions", DEFAULTS_NEXT, HEADER_SPEC, HEADER_TODO, HEADER_EDIT,
              SEG_DEFAULT + ("default_permissions" + (":" + FromDefaults(rest))));
  }

  lemma MatchDefaults(rest: string)
    ensures Match(DEFAULTS_NEXT, FromDefaults(rest)).Some?
    ensures Match(DEFAULTS_NEXT, FromDefaults(rest)).value.caps == [DEFAULTS_TEXT]
  {
    var tail := "\n    subscribe" + (":" + (" { deny" + (":" + (SEG_USERS + ("users" + (":" + (" [" + rest)))))));
    FromDefaultsIs(rest, tail);
    hide FromDefaults;
    var close := Lit("}", Done);
    MatchGap(" ", "{", Run(Except('}'), 0, true, close), DEFAULTS_TEXT + ("}" + tail));
    assert ("}" + tail)[0] == '}';
    DefaultsNoBrace();
    MatchRun(Except('}'), 0, true, close, DEFAULTS_TEXT, "}" + tail);
    MatchLit("}", Done, tail);
    KeepDone(DEFAULTS_TEXT, tail);
  }

  lemma DefaultsNoBrace()
    ensures All(Except('}'), DEFAULTS_TEXT)
  {
  }

  lemma FromDefaultsIs(rest: string, tail: string)
    requires tail == "\n    subscribe" + (":" + (" { deny" + (":" + (SEG_USERS + ("users" + (":" + (" [" + rest)))))))
    ensures FromDefaults(rest) == " " + ("{" + (DEFAULTS_TEXT + ("}" + tail)))
  {
    var t := ":" + (" { deny" + (":" + (SEG_USERS + ("users" + (":" + (" [" + rest))))));
    assert " [\">\"] }\n    subscribe" + t == " [\">\"] " + ("}" + tail) by {
      assert " [\">\"] }\n    subscribe" == " [\">\"] " + ("}" + "\n    subscribe");
    }
    DefaultsHead("}" + tail);
  }

  lemma DefaultsHead(x: string)
    ensures " {\n    publish" + (":" + ("   { deny" + (":" + (" [\">\"] " + x)))) == " " + ("{" + (DEFAULTS_TEXT + x))
  {
    assert " {\n    publish" == " " + ("{" + "\n    publish");
    assert DEFAULTS_TEXT == "\n    publish" + (":" + ("   { deny" + (":" + " [\">\"] ")));
  }

  /** The parser sees one of the two rendered defaults: the lazy capture ends before `subscribe`. */
  lemma DefaultsReadBack(us: seq<User>)
    ensures ParseAuthConf(ConfText(us)).publishDeny == [">"]
    ensures ParseAuthConf(ConfText(us)).subscribeDeny == []
  {
    hide Search, ConfText, ParseAll, ScanBlocks, DenyList;
    DefaultsBlock(us);
    DenyDefaults();
  }

  lemma DenyDefaults()
    ensures DenyList(DEFAULTS_TEXT, "publish") == [">"] && DenyList(DEFAULTS_TEXT, "subscribe") == []
  {
    DefaultGroup();
    var hits := [["publish", "\">\""]];
    assert "publish"[0] != "subscribe"[0];
    assert hits[1..] == [];
    CleanGt();
  }

  lemma DefaultGroup()
    ensures FindAll(ListPat("deny"), DEFAULTS_TEXT) == [["publish", "\">\""]]
  {
    DefaultGroupText();
    assert ']' !in "\">\"" && "deny"[0] == 'd';
    hide FindAll;
    OneGroup("deny", "\n    ", "publish", "   ", "\">\"");
  }

  lemma OneGroup(keyword: string, indent: string, word: string, gap: string, list: string)
    requires keyword != "" && !IsSpace(keyword[0]) && ']' !in list
    requires word != "" && All(WordChars, word) && AllSpaces(gap) && AllSpaces(indent)
    ensures FindAll(ListPat(keyword),
                    indent + (word + (":" + (gap + ("{" + (" " + (keyword + (":" + (" " + ("[" + (list + ("]" + " "))))))))))))
            == [[word, list]]
  {
    hide FindAll;
    var next := Run(Spaces, 0, false, Lit(":", AfterKey(keyword)));
    SkipNonWord(next, indent, word + (":" + (gap + ("{" + (" " + (keyword + (":" + (" " + ("[" + (list + ("]" + " "))))))))))) by {
      assert forall k | 0 <= k < |indent| :: IsSpace(indent[k]);
    }
    KeywordStep(keyword, word, gap, list, " ");
    BlankHasNone(next);
  }

  lemma BlankHasNone(next: Pat)
    ensures FindAll(WordPat(next), " ") == []
  {
    assert " " == " " + "";
    SkipNonWord(next, " ", "");
  }

  lemma DefaultGroupText()
    ensures DEFAULTS_TEXT
            == "\n    " + ("publish" + (":" + ("   " + ("{" + (" " + ("deny" + (":" + (" " + ("[" + ("\">\"" + ("]" + " ")))))))))))
  {
    assert DEFAULTS_TEXT == "\n    publish:   { deny: [\">\"] ";
  }

  // ---------------------------------------------------------------------------------------------
  // End to end
  // ---------------------------------------------------------------------------------------------

  /** Names, keys and grants of the active identities are free of structural characters. */
  predicate SafeMatrix(m: Matrix, pubkeys: map<string, string>)
    requires ValidMatrix(m) && HasKeys(m, pubkeys)
  {
    forall u | u in UsersOf(m, pubkeys, m.identities) :: SafeUser(u)
  }

  /** The user blocks of a file. */
  function BlocksIn(text: string): seq<string> { ScanBlocks(Cap(Search(USERS, text)), 0, None) }

  /** The inside of a block's `permissions`. */
  function PermsIn(block: string): string { Cap(Search(PERMS, block)) }

  /** What the server does with the lists it reads under a keyword: a subject is refused if an entry of the deny list
      matches it, or if there are allow entries and none matches. An empty allow list restricts nothing. */
  predicate Permits(perm: string, word: string, subject: string) {
    && (forall g | g in DenyList(perm, word) :: !Matches(g, subject))
    && (AllowSet(perm, word) != {} ==> exists g | g in AllowSet(perm, word) :: Matches(g, subject))
  }

  lemma GtMatchesAll(subject: string)
    ensures Matches(">", subject)
  {
    SplitNone(">", '.');
  }

  lemma {:induction false} UserAt(m: Matrix, pubkeys: map<string, string>, es: seq<Entry>, e: Entry) returns (i: nat)
    requires ValidMatrix(m) && forall f | f in es :: f in m.identities && (f.id.status == Active ==> f.name in pubkeys)
    requires e in es && e.id.status == Active
    ensures i < |UsersOf(m, pubkeys, es)|
    ensures UsersOf(m, pubkeys, es)[i]
            == User(e.name, pubkeys[e.name], Effective(m, e, Publish), Effective(m, e, Subscribe), e.id.allowResponses)
  {
    hide Effective, ValidMatrix;
    var n := |es| - 1;
    if es[n] == e {
      i := |UsersOf(m, pubkeys, es[..n])|;
    } else {
      assert es == es[..n] + [es[n]];
      i := UserAt(m, pubkeys, es[..n], e);
    }
  }

  /** For every active identity and every subject, the server, reading the allow and deny lists of the identity's block,
      permits the subject exactly when one of the identity's own, group or flow-inbox grants covers it. */
  lemma EndToEnd(m: Matrix, pubkeys: map<string, string>, e: Entry, subject: string) returns (i: nat)
    requires ValidMatrix(m) && HasKeys(m, pubkeys) && SafeMatrix(m, pubkeys)
    requires e in m.identities && e.id.status == Active
    ensures var text := ConfText(UsersOf(m, pubkeys, m.identities));
            var blocks, users := BlocksIn(text), ParseAuthConf(text).users;
            && |blocks| == |users| && i < |users| && users[i] == ParseUser(blocks[i])
            && users[i].commentName == e.name && users[i].nkey == pubkeys[e.name]
            && users[i].allowResponses == e.id.allowResponses
            && (Permits(PermsIn(blocks[i]), "publish", subject) <==> Granted(m, e, Publish, subject))
            && (Permits(PermsIn(blocks[i]), "subscribe", subject) <==> Granted(m, e, Subscribe, subject))
  {
    hide Matches, Granted, Effective, ConfText, ParseAuthConf, ParseUser, SafeUser, Permits, BlocksIn, PermsIn, BlockThen;
    var us := UsersOf(m, pubkeys, m.identities);
    UsersRoundTrip(us);
    BlocksRoundTrip(us);
    i := UserAt(m, pubkeys, m.identities, e);
    assert us[i] in us;
    ReadBlock(us[i]);
    PermsOfBlock(us[i]);
    PermitsIsGranted(m, e, Publish, us[i], "publish", subject);
    PermitsIsGranted(m, e, Subscribe, us[i], "subscribe", subject);
  }

  lemma BlocksRoundTrip(us: seq<User>)
    requires forall u | u in us :: SafeUser(u)
    ensures BlocksIn(ConfText(us)) == BlocksOf(us)
  {
    hide Search, ConfText, SafeUser, Body, ScanBlocks, BlockThen;
    UsersBlock(us);
    ScanBody(us);
  }

  lemma PermsOfBlock(u: User)
    requires SafeUser(u)
    ensures PermsIn(BlockThen(u, "")) == PermBody(u)
  {
    hide Search, SafeUser, BlockThen, PermBody;
    ReadBlock(u);
  }

  /** Both lists of a rendered block, together, mean the effective grants. */
  lemma PermitsIsGranted(m: Matrix, e: Entry, d: Direction, u: User, word: string, subject: string)
    requires ValidMatrix(m) && e in m.identities && SafeUser(u)
    requires (d == Publish && word == "publish" && u.pub == Effective(m, e, d))
             || (d == Subscribe && word == "subscribe" && u.sub == Effective(m, e, d))
    ensures Permits(PermBody(u), word, subject) <==> Granted(m, e, d, subject)
  {
    hide Matches, Granted, Effective, SafeUser, PermBody, DenyList, AllowSet;
    EffectiveMeaning(m, e, d, subject);
    GtMatchesAll(subject);
    ReadLists(u);
    ReadDenials(u);
    var l := Effective(m, e, d);
    assert AllowSet(PermBody(u), word) == (set g | g in l);
    assert DenyList(PermBody(u), word) == if l == [] then [">"] else [];
    if l != [] {
      assert l[0] in AllowSet(PermBody(u), word);
    } else {
      assert ">" in DenyList(PermBody(u), word);
    }
  }

  // ---------------------------------------------------------------------------------------------
  // The default permissions
  // ---------------------------------------------------------------------------------------------

  const DENY_ALL := " deny: [\">\"] "
  const DEFAULT_GROUPS := "\n    " + ("publish" + (":" + ("   " + ("{" + (DENY_ALL + ("}" + SECOND_DEFAULT))))))
  const SECOND_DEFAULT := "\n    " + ("subscribe" + (":" + (" " + ("{" + (DENY_ALL + ("}" + "\n  "))))))

  /** Whoever has no block of their own may do nothing: the rendered defaults deny both ways, whatever the parser of the
      file makes of them. */
  lemma DefaultsDenyAll(us: seq<User>) returns (pre: string, body: string, rest: string)
    ensures ConfText(us) == pre + ("default_permissions: {" + (body + ("}" + rest))) && NoBraceLeft(body)
    ensures forall s :: !Permits(body, "publish", s) && !Permits(body, "subscribe", s)
  {
    hide ConfText, Body, Opening, Permits, NoBraceLeft, DEFAULT_GROUPS;
    ConfShape(us);
    pre, rest := DefaultsAre(Body(us) + CLOSING);
    body := DEFAULT_GROUPS;
    GroupsBalanced();
    forall s
      ensures !Permits(body, "publish", s) && !Permits(body, "subscribe", s)
    {
      DefaultsDeny(s);
    }
  }

  /** The braces of a text match up. */
  predicate NoBraceLeft(body: string) { ScanBlocks("{" + body + "}", 0, None) == ["{" + body + "}"] }

  lemma DefaultsDeny(s: string)
    ensures !Permits(DEFAULT_GROUPS, "publish", s) && !Permits(DEFAULT_GROUPS, "subscribe", s)
  {
    hide Matches, FindAll, CleanItems, DEFAULT_GROUPS;
    DefaultHits();
    GtMatchesAll(s);
    CleanGt();
    assert "publish"[0] != "subscribe"[0];
    FirstOf(["publish", "\">\""], ["subscribe", "\">\""], true, true, "publish");
    FirstOf(["publish", "\">\""], ["subscribe", "\">\""], true, true, "subscribe");
    assert ">" in DenyList(DEFAULT_GROUPS, "publish") && ">" in DenyList(DEFAULT_GROUPS, "subscribe");
  }

  lemma DefaultHits()
    ensures FindAll(ListPat("deny"), DEFAULT_GROUPS) == [["publish", "\">\""]] + ([["subscribe", "\">\""]] + [])
  {
    hide FindAll, Match, ListPat;
    assert ListText([]) == DENY_ALL;
    hide ListText;
    assert All(WordChars, "publish") && All(WordChars, "subscribe");
    SkipIndent("\n    ", "publish" + (":" + ("   " + ("{" + (DENY_ALL + ("}" + SECOND_DEFAULT))))));
    DenyListStep("publish", "   ", [], SECOND_DEFAULT);
    SkipIndent("\n    ", "subscribe" + (":" + (" " + ("{" + (DENY_ALL + ("}" + "\n  "))))));
    DenyListStep("subscribe", " ", [], "\n  ");
    SkipIndent("\n  ", "");
    assert "\n  " + "" == "\n  ";
    NothingFound();
  }

  /** The opening lines hold that block. */
  lemma DefaultsAre(r: string) returns (pre: string, rest: string)
    ensures Opening(r) == pre + ("default_permissions: {" + (DEFAULT_GROUPS + ("}" + rest)))
  {
    pre := HEADER_SPEC + (":" + (HEADER_TODO + (":" + (HEADER_EDIT + (":" + SEG_DEFAULT)))));
    rest := "\n  " + ("users" + (":" + (" [" + r)));
    DefaultsText(rest);
    BeforeDefaults("default_permissions" + (":" + FromDefaults(r)));
    assert SEG_USERS + ("users" + (":" + (" [" + r))) == " [\">\"] " + ("}" + ("\n  " + ("}" + rest))) by {
      assert SEG_USERS == " [\">\"] " + ("}" + ("\n  " + ("}" + "\n  ")));
    }
  }

  lemma BeforeDefaults(x: string)
    ensures HEADER_SPEC + (":" + (HEADER_TODO + (":" + (HEADER_EDIT + (":" + (SEG_DEFAULT + x))))))
            == (HEADER_SPEC + (":" + (HEADER_TODO + (":" + (HEADER_EDIT + (":" + SEG_DEFAULT)))))) + x
  {
    hide HEADER_SPEC, HEADER_TODO, HEADER_EDIT, SEG_DEFAULT;
    ConcatSeven(HEADER_SPEC, HEADER_TODO, HEADER_EDIT, SEG_DEFAULT, x);
  }

  lemma ConcatSeven(a: string, b: string, c: string, d: string, x: string)
    ensures a + (":" + (b + (":" + (c + (":" + (d + x)))))) == (a + (":" + (b + (":" + (c + (":" + d)))))) + x
  {
  }

  /** The second group, from its list on. */
  lemma SecondText(rest: string)
    ensures " [\">\"] }\n    subscribe" + (":" + (" { deny" + (":" + (" [\">\"] " + ("}" + ("\n  " + ("}" + rest)))))))
            == " [\">\"] " + ("}" + (SECOND_DEFAULT + ("}" + rest)))
  {
    var z := "\n  " + ("}" + rest);
    assert SECOND_DEFAULT + ("}" + rest) == "\n    " + ("subscribe" + (":" + (" " + ("{" + (DENY_ALL + ("}" + z))))));
    assert DENY_ALL == " deny" + (":" + " [\">\"] ");
    assert " [\">\"] }\n    subscribe" == " [\">\"] " + ("}" + ("\n    " + "subscribe"));
    assert " { deny" == " " + ("{" + " deny");
  }

  lemma FirstText(x: string)
    ensures "default_permissions" + (":" + (" {\n    publish" + (":" + ("   { deny" + (":" + (" [\">\"] " + x))))))
            == "default_permissions: {" + ("\n    " + ("publish" + (":" + ("   " + ("{" + (DENY_ALL + x))))))
  {
    DenyAllText();
    assert "   { deny" == "   " + ("{" + " deny");
    assert " {\n    publish" == " {" + ("\n    " + "publish");
    DefaultKeyText();
  }

  lemma DenyAllText()
    ensures DENY_ALL == " deny" + (":" + " [\">\"] ")
  {
  }

  lemma DefaultKeyText()
    ensures "default_permissions" + (":" + " {") == "default_permissions: {"
  {
  }

  lemma DefaultsText(rest: string)
    ensures "default_permissions" + (":" + (" {\n    publish" + (":" + ("   { deny" + (":" + (" [\">\"] }\n    subscribe"
            + (":" + (" { deny" + (":" + (" [\">\"] " + ("}" + ("\n  " + ("}" + rest)))))))))))))
            == "default_permissions: {" + (DEFAULT_GROUPS + ("}" + rest))
  {
    SecondText(rest);
    FirstText("}" + (SECOND_DEFAULT + ("}" + rest)));
    hide DENY_ALL, SECOND_DEFAULT;
    assert DEFAULT_GROUPS + ("}" + rest)
           == "\n    " + ("publish" + (":" + ("   " + ("{" + (DENY_ALL + ("}" + (SECOND_DEFAULT + ("}" + rest))))))));
  }

  lemma GroupsBalanced()
    ensures NoBraceLeft(DEFAULT_GROUPS)
  {
    DefaultsFlat();
    hide ScanBlocks, NoBraces, DENY_ALL;
    var p, q := "\n    " + ("publish" + (":" + "   ")), "\n    " + ("subscribe" + (":" + " "));
    var end := "\n  " + "}";
    assert DEFAULT_GROUPS + "}" == p + ("{" + (DENY_ALL + ("}" + (q + ("{" + (DENY_ALL + ("}" + end))))))) by {
      GroupsText(DENY_ALL);
    }
    ScanStart(DEFAULT_GROUPS + "}");
    assert "{" + DEFAULT_GROUPS + "}" == "{" + (DEFAULT_GROUPS + "}");
    ScanGroup(p, DENY_ALL, q + ("{" + (DENY_ALL + ("}" + end))), 1, "{");
    var c1 := "{" + (p + ("{" + (DENY_ALL + "}")));
    ScanGroup(q, DENY_ALL, end, 1, c1);
    var c2 := c1 + (q + ("{" + (DENY_ALL + "}")));
    ScanFlat("\n  ", "}", 1, c2);
    assert "}" + "" == "}";
    ScanEnd("", c2 + "\n  ");
    NoBlocks();
    assert c2 + "\n  " + "}" == "{" + (DEFAULT_GROUPS + "}");
  }

  lemma GroupsText(x: string)
    ensures "\n    " + ("publish" + (":" + ("   " + ("{" + (x + ("}" + ("\n    " + ("subscribe" + (":" + (" " + ("{" + (x + ("}" + "\n  "))))))))))))) + "}"
            == ("\n    " + ("publish" + (":" + "   "))) + ("{" + (x + ("}" + (("\n    " + ("subscribe" + (":" + " "))) + ("{" + (x + ("}" + ("\n  " + "}"))))))))
  {
    var q := "\n    " + ("subscribe" + (":" + " "));
    assert "\n    " + ("subscribe" + (":" + (" " + ("{" + (x + ("}" + "\n  ")))))) + "}" == q + ("{" + (x + ("}" + ("\n  " + "}"))));
  }

  lemma NoBlocks()
    ensures ScanBlocks("", 0, None) == []
  {
  }

  lemma DefaultsFlat()
    ensures NoBraces("\n    " + ("publish" + (":" + "   "))) && NoBraces("\n    " + ("subscribe" + (":" + " ")))
    ensures NoBraces(DENY_ALL) && NoBraces("\n  ")
  {
  }

  lemma NothingFound()
    ensures FindAll(ListPat("deny"), "") == []
  {
  }

  lemma SkipIndent(indent: string, s: string)
    requires AllSpaces(indent)
    ensures FindAll(ListPat("deny"), indent + s) == FindAll(ListPat("deny"), s)
  {
    hide FindAll, Match;
    assert forall k | 0 <= k < |indent| :: IsSpace(indent[k]);
    SkipNonWord(Run(Spaces, 0, false, Lit(":", AfterKey("deny"))), indent, s);
  }

  /** Flattening the matrix does not change the rendered file. */
  lemma FlattenRendersTheSame(m: Matrix, pubkeys: map<string, string>)
    requires ValidMatrix(m) && HasKeys(m, pubkeys)
    ensures ValidMatrix(Flatten(m)) && HasKeys(Flatten(m), pubkeys)
    ensures ConfText(UsersOf(Flatten(m), pubkeys, Flatten(m).identities)) == ConfText(UsersOf(m, pubkeys, m.identities))
  {
    hide ConfText, Effective;
    FlattenValid(m);
    SameUsers(m, pubkeys, m.identities);
  }

  lemma {:induction false} SameUsers(m: Matrix, pubkeys: map<string, string>, es: seq<Entry>)
    requires ValidMatrix(m) && HasKeys(m, pubkeys) && ValidMatrix(Flatten(m)) && HasKeys(Flatten(m), pubkeys)
    requires forall e | e in es :: e in m.identities
    ensures forall f | f in FlatEntries(m, es) :: f in Flatten(m).identities
    ensures UsersOf(Flatten(m), pubkeys, FlatEntries(m, es)) == UsersOf(m, pubkeys, es)
  {
    hide Effective, ValidMatrix, Flatten, Flat;
    if es != [] {
      var n := |es| - 1;
      SameUsers(m, pubkeys, es[..n]);
      assert es[n] in es;
      var fs := FlatEntries(m, es[..n]);
      if es[n].id.status == Active {
        SameUser(m, pubkeys, es[n]);
        assert FlatEntries(m, es) == fs + [Flat(m, es[n])];
        UsersSnoc(Flatten(m), pubkeys, fs, Flat(m, es[n]));
      } else {
        assert FlatEntries(m, es) == fs + [] == fs;
        assert UsersOf(m, pubkeys, es) == UsersOf(m, pubkeys, es[..n]) + [] == UsersOf(m, pubkeys, es[..n]);
      }
    }
  }

  lemma SameUser(m: Matrix, pubkeys: map<string, string>, e: Entry)
    requires ValidMatrix(m) && HasKeys(m, pubkeys) && ValidMatrix(Flatten(m)) && HasKeys(Flatten(m), pubkeys)
    requires e in m.identities && e.id.status == Active
    ensures Flat(m, e) in Flatten(m).identities && Flat(m, e).id.status == Active && Flat(m, e).name == e.name
    ensures Flat(m, e).id.allowResponses == e.id.allowResponses
    ensures Effective(Flatten(m), Flat(m, e), Publish) == Effective(m, e, Publish)
    ensures Effective(Flatten(m), Flat(m, e), Subscribe) == Effective(m, e, Subscribe)
  {
    hide Effective, ValidMatrix, HasKeys;
    FlatInFlatten(m, m.identities, e);
    FlattenEffective(m, e, Publish);
    FlattenEffective(m, e, Subscribe);
  }

  lemma UsersSnoc(m: Matrix, pubkeys: map<string, string>, es: seq<Entry>, e: Entry)
    requires ValidMatrix(m) && HasKeys(m, pubkeys)
    requires e in m.identities && e.id.status == Active && forall f | f in es :: f in m.identities
    ensures UsersOf(m, pubkeys, es + [e])
            == UsersOf(m, pubkeys, es)
               + [User(e.name, pubkeys[e.name], Effective(m, e, Publish), Effective(m, e, Subscribe), e.id.allowResponses)]
  {
    hide Effective, ValidMatrix;
    assert (es + [e])[..|es|] == es;
  }
}
