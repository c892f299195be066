/** The brace scanner splits a rendered `users[]` list back into exactly the emitted blocks. */
module AuthConfBlocks {
  import opened Text
  import opened AuthConf

  /** Characters that carry the syntax of the file. */
  predicate Structural(c: char) {
    IsSpace(c) || c == '{' || c == '}' || c == '[' || c == ']' || c == '"' || c == ',' || c == ':' || c == '#'
  }

  predicate Safe(s: string) { forall k | 0 <= k < |s| :: !Structural(s[k]) }

  predicate SafeUser(u: User) {
    && u.name != "" && Safe(u.name) && u.key != "" && Safe(u.key)
    && (forall g | g in u.pub :: Safe(g)) && (forall g | g in u.sub :: Safe(g))
  }

  predicate NoBraces(s: string) { forall k | 0 <= k < |s| :: s[k] != '{' && s[k] != '}' }

  lemma {:induction false} ScanFlat(w: string, s: string, depth: int, cur: string)
    requires NoBraces(w)
    ensures ScanBlocks(w + s, depth, Some(cur)) == ScanBlocks(s, depth, Some(cur + w))
    decreases |w|
  {
    if w == "" {
      assert w + s == s && cur + w == cur;
    } else {
      ConsConcat(w, s);
      ScanFlat(w[1..], s, depth, cur + [w[0]]);
      assert cur + [w[0]] + w[1..] == cur + w;
    }
  }

  lemma {:induction false} ScanOutside(w: string, s: string)
    requires NoBraces(w)
    ensures ScanBlocks(w + s, 0, None) == ScanBlocks(s, 0, None)
    decreases |w|
  {
    if w == "" {
      assert w + s == s;
    } else {
      ConsConcat(w, s);
      ScanOutside(w[1..], s);
    }
  }

  lemma ScanOpen(s: string, depth: int, cur: string)
    requires depth > 0
    ensures ScanBlocks("{" + s, depth, Some(cur)) == ScanBlocks(s, depth + 1, Some(cur + "{"))
  {
    ConsConcat("{", s);
  }

  lemma ScanClose(s: string, depth: int, cur: string)
    requires depth > 1
    ensures ScanBlocks("}" + s, depth, Some(cur)) == ScanBlocks(s, depth - 1, Some(cur + "}"))
  {
    ConsConcat("}", s);
  }

  lemma ScanStart(s: string)
    ensures ScanBlocks("{" + s, 0, None) == ScanBlocks(s, 1, Some("{"))
  {
    ConsConcat("{", s);
  }

  lemma ScanEnd(s: string, cur: string)
    ensures ScanBlocks("}" + s, 1, Some(cur)) == [cur + "}"] + ScanBlocks(s, 0, None)
  {
    ConsConcat("}", s);
  }

  /** Inside a block, one `tag { list }` group leaves the depth as it was. */
  lemma ScanGroup(tag: string, inner: string, s: string, depth: nat, cur: string)
    requires depth > 0 && NoBraces(tag) && NoBraces(inner)
    ensures ScanBlocks(tag + ("{" + (inner + ("}" + s))), depth, Some(cur))
            == ScanBlocks(s, depth, Some(cur + (tag + ("{" + (inner + "}")))))
  {
    hide ScanBlocks;
    ScanFlat(tag, "{" + (inner + ("}" + s)), depth, cur);
    ScanOpen(inner + ("}" + s), depth, cur + tag);
    ScanFlat(inner, "}" + s, depth + 1, cur + tag + "{");
    ScanClose(s, depth + 1, cur + tag + "{" + inner);
    assert cur + tag + "{" + inner + "}" == cur + (tag + ("{" + (inner + "}")));
  }

  lemma TextsFlat(u: User)
    requires SafeUser(u)
    ensures NoBraces(KeyText(u)) && NoBraces(EndText(u)) && NoBraces(ListText(u.pub)) && NoBraces(ListText(u.sub))
  {
    ListFlat(u.pub);
    ListFlat(u.sub);
    KeyFlat(u.key, u.name);
    assert NoBraces(EndText(u));
  }

  lemma KeyFlat(key: string, name: string)
    requires Safe(key) && Safe(name)
    ensures NoBraces("\n      nkey: \"" + key + "\"\n      # " + name + "\n      permissions: ")
  {
    var a, b, c := "\n      nkey: \"", "\"\n      # ", "\n      permissions: ";
    assert NoBraces(a) && NoBraces(b) && NoBraces(c) && NoBraces(key) && NoBraces(name);
    hide NoBraces;
    NoBracesConcat(a, key);
    NoBracesConcat(a + key, b);
    NoBracesConcat(a + key + b, name);
    NoBracesConcat(a + key + b + name, c);
  }

  lemma NoBracesConcat(a: string, b: string)
    requires NoBraces(a) && NoBraces(b)
    ensures NoBraces(a + b)
  {
  }

  lemma {:induction false} JoinFlat(parts: seq<string>)
    requires forall p | p in parts :: NoBraces(p)
    ensures NoBraces(Join(",", parts))
  {
    if |parts| > 1 {
      JoinFlat(parts[1..]);
    }
    if parts != [] {
      assert parts[0] in parts;
    }
  }

  lemma ListFlat(allow: seq<string>)
    requires forall g | g in allow :: Safe(g)
    ensures NoBraces(ListText(allow))
  {
    forall p | p in QuotedAll(allow)
      ensures NoBraces(p)
    {
      var i :| 0 <= i < |allow| && p == Quoted(allow[i]);
      assert Safe(allow[i]);
    }
    JoinFlat(QuotedAll(allow));
  }

  /** Inside of the permissions block. */
  function PermBody(u: User): string {
    PUBLISH_TEXT + ("{" + (ListText(u.pub)
    + ("}" + (SUBSCRIBE_TEXT + ("{" + (ListText(u.sub)
    + ("}" + (EndText(u)
    + ("}" + "\n    ")))))))))
  }

  lemma ScanUser(u: User, tail: string)
    requires SafeUser(u)
    ensures ScanBlocks(BlockThen(u, tail), 0, None) == [BlockThen(u, "")] + ScanBlocks(tail, 0, None)
  {
    TextsFlat(u);
    hide ScanBlocks, KeyText, EndText, ListText, SafeUser, NoBraces;
    assert NoBraces(PUBLISH_TEXT) && NoBraces(SUBSCRIBE_TEXT) && NoBraces("\n    ") by { ConstsFlat(); }
    var g2 := SUBSCRIBE_TEXT + ("{" + (ListText(u.sub) + ("}" + (EndText(u) + ("}" + ("\n    " + ("}" + tail)))))));
    var c0 := "{" + KeyText(u) + "{";
    var c1 := c0 + (PUBLISH_TEXT + ("{" + (ListText(u.pub) + "}")));
    var c2 := c1 + (SUBSCRIBE_TEXT + ("{" + (ListText(u.sub) + "}")));
    ScanStart(KeyText(u) + ("{" + (PUBLISH_TEXT + ("{" + (ListText(u.pub) + ("}" + g2))))));
    ScanFlat(KeyText(u), "{" + (PUBLISH_TEXT + ("{" + (ListText(u.pub) + ("}" + g2)))), 1, "{");
    ScanOpen(PUBLISH_TEXT + ("{" + (ListText(u.pub) + ("}" + g2))), 1, "{" + KeyText(u));
    ScanGroup(PUBLISH_TEXT, ListText(u.pub), g2, 2, c0);
    ScanGroup(SUBSCRIBE_TEXT, ListText(u.sub), EndText(u) + ("}" + ("\n    " + ("}" + tail))), 2, c1);
    ScanFlat(EndText(u), "}" + ("\n    " + ("}" + tail)), 2, c2);
    ScanClose("\n    " + ("}" + tail), 2, c2 + EndText(u));
    ScanFlat("\n    ", "}" + tail, 1, c2 + EndText(u) + "}");
    ScanEnd(tail, c2 + EndText(u) + "}" + "\n    ");
    Regroup(KeyText(u), PUBLISH_TEXT, ListText(u.pub), SUBSCRIBE_TEXT, ListText(u.sub), EndText(u), "\n    ");
  }

  lemma ConstsFlat()
    ensures NoBraces(PUBLISH_TEXT) && NoBraces(SUBSCRIBE_TEXT) && NoBraces("\n    ")
  {
  }

  lemma Regroup(a: string, b: string, c: string, d: string, e: string, f: string, g: string)
    ensures "{" + a + "{" + (b + ("{" + (c + "}"))) + (d + ("{" + (e + "}"))) + f + "}" + g + "}"
            == "{" + (a + ("{" + (b + ("{" + (c + ("}" + (d + ("{" + (e + ("}" + (f + ("}" + (g + ("}" + ""))))))))))))))
  {
    var z := "}" + "";
    assert f + "}" + g + "}" == f + ("}" + (g + z));
    var y := f + ("}" + (g + z));
    assert (d + ("{" + (e + "}"))) + y == d + ("{" + (e + ("}" + y)));
    var x := d + ("{" + (e + ("}" + y)));
    assert (b + ("{" + (c + "}"))) + x == b + ("{" + (c + ("}" + x)));
    var l := "{" + a + "{";
    var p, q := b + ("{" + (c + "}")), d + ("{" + (e + "}"));
    assert l + p + q + f + "}" + g + "}" == l + (p + (q + (f + "}" + g + "}")));
  }

  /** The text between the brackets of `users: [`. */
  function Body(us: seq<User>): string {
    if us == [] then "\n  " else "\n    " + BlockThen(us[0], Body(us[1..]))
  }

  function BlocksOf(us: seq<User>): seq<string> { seq(|us|, i requires 0 <= i < |us| => BlockThen(us[i], "")) }

  lemma {:induction false} ScanBody(us: seq<User>)
    requires forall u | u in us :: SafeUser(u)
    ensures ScanBlocks(Body(us), 0, None) == BlocksOf(us)
  {
    hide SafeUser, BlockThen;
    if us == [] {
      assert Body(us) == "\n  " + "";
      ScanOutside("\n  ", "");
    } else {
      assert us[0] in us;
      ScanOutside("\n    ", BlockThen(us[0], Body(us[1..])));
      ScanUser(us[0], Body(us[1..]));
      ScanBody(us[1..]);
      assert BlocksOf(us) == [BlockThen(us[0], "")] + BlocksOf(us[1..]);
    }
  }
}
