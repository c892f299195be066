/** Rendering `auth.conf` from the matrix and reading it back. */
module AuthConf {
  import opened Text
  import opened Patterns
  import opened AclMatrix

  // ---------------------------------------------------------------------------------------------
  // Rendering
  // ---------------------------------------------------------------------------------------------

  /** What one `users[]` block is rendered from. */
  datatype User = User(name: string, key: string, pub: seq<string>, sub: seq<string>, allowResponses: bool)

  // The header comment, cut at its colons, at which the patterns below look for a key. Each part is
  // written in short pieces because that it holds no colon is proved piece by piece.
  const HEADER_SPEC := "# NATS nkey authorization — " + "generated by factory-acl genkeys\n# Spec"
  const HEADER_TODO := " artifacts/specs/706-per-role-nkeys-acls-" + "spec" + ".mdx\n# TODO(ADR-045)"
  const HEADER_EDIT := " ACL for roxabi-nats SDK identities" + " intentionally omitted\n"
                       + "#                until the SDK " + "extraction lands — rerun this script then.\n"
                       + "# DO NOT edit manually — regenerate with"
  const HEADER_CMD := " sudo env \"PATH=$PATH\"" + " factory-acl genkeys --regenerate"
  const HEADER := HEADER_SPEC + ":" + HEADER_TODO + ":" + HEADER_EDIT + ":" + HEADER_CMD

  function Quoted(s: string): string { "\"" + s + "\"" }

  function QuotedAll(items: seq<string>): seq<string> { seq(|items|, i requires 0 <= i < |items| => Quoted(items[i])) }

  function QuotedList(items: seq<string>): string { Join(",", QuotedAll(items)) }

  /** Inside of a permission block; an empty allow list is rendered as a deny of everything. */
  function ListText(allow: seq<string>): string {
    if allow != [] then " allow: [" + QuotedList(allow) + "] " else " deny: [\">\"] "
  }

  function KeyText(u: User): string {
    "\n      nkey: \"" + u.key + "\"\n      # " + u.name + "\n      permissions: "
  }

  function EndText(u: User): string {
    "\n        allow_responses: " + (if u.allowResponses then "true" else "false") + "\n      "
  }

  const PUBLISH_TEXT := "\n        publish:   "
  const SUBSCRIBE_TEXT := "\n        subscribe: "

  /** A user block from its opening brace on, with `tail` after its closing brace. */
  function BlockThen(u: User, tail: string): string {
    "{" + (KeyText(u)
    + ("{" + (PUBLISH_TEXT + ("{" + (ListText(u.pub)
    + ("}" + (SUBSCRIBE_TEXT + ("{" + (ListText(u.sub)
    + ("}" + (EndText(u)
    + ("}" + ("\n    "
    + ("}" + tail))))))))))))))
  }

  /** `_emit_user`. */
  function EmitUser(u: User): string { "    " + BlockThen(u, "") }

  function Emitted(us: seq<User>): seq<string> { seq(|us|, i requires 0 <= i < |us| => EmitUser(us[i])) }

  const OPENING: seq<string> := [
    HEADER, "authorization {", "  default_permissions: {",
    "    publish:   { deny: [\">\"] }", "    subscribe: { deny: [\">\"] }", "  }", "  users: ["]

  function ConfText(us: seq<User>): string { Join("\n", OPENING + Emitted(us) + ["  ]", "}"]) + "\n" }

  /** The active identities, in matrix order, with their keys and effective grants. */
  function UsersOf(m: Matrix, pubkeys: map<string, string>, es: seq<Entry>): seq<User>
    requires ValidMatrix(m) && forall e | e in es :: e in m.identities && (e.id.status == Active ==> e.name in pubkeys)
  {
    if es == [] then []
    else
      var n := |es| - 1;
      var e := es[n];
      UsersOf(m, pubkeys, es[..n])
      + if e.id.status == Active
        then [User(e.name, pubkeys[e.name], Effective(m, e, Publish), Effective(m, e, Subscribe), e.id.allowResponses)]
        else []
  }

  predicate HasKeys(m: Matrix, pubkeys: map<string, string>) {
    forall e | e in m.identities && e.id.status == Active :: e.name in pubkeys
  }

  /** `render_auth_conf`. */
  method RenderAuthConf(m: Matrix, pubkeys: map<string, string>) returns (text: string)
    requires ValidMatrix(m) && HasKeys(m, pubkeys)
    ensures text == ConfText(UsersOf(m, pubkeys, m.identities))
  {
    hide IsAllow, Effective, ValidMatrix, EmitUser;
    var pub, sub := EffectiveGrants(m);
    var lines := OPENING;
    ghost var us: seq<User> := [];
    var es := m.identities;
    for k := 0 to |es|
      invariant forall e | e in es[..k] :: e in m.identities
      invariant us == UsersOf(m, pubkeys, es[..k]) && lines == OPENING + Emitted(us)
    {
      var e := es[k];
      assert es[..k + 1][..k] == es[..k];
      AllowIsEffective(m, Publish, pub, e);
      AllowIsEffective(m, Subscribe, sub, e);
      if e.name in pub {
        var u := User(e.name, pubkeys[e.name], pub[e.name], sub[e.name], e.id.allowResponses);
        assert Emitted(us + [u]) == Emitted(us) + [EmitUser(u)];
        lines := lines + [EmitUser(u)];
        us := us + [u];
      }
    }
    assert es[..|es|] == es;
    lines := lines + ["  ]"];
    lines := lines + ["}"];
    assert lines == OPENING + Emitted(us) + ["  ]", "}"];
    text := Join("\n", lines) + "\n";
  }

  // ---------------------------------------------------------------------------------------------
  // Parsing
  // ---------------------------------------------------------------------------------------------

  const USERS := KeyPat("users", Run(Spaces, 0, false, Lit("[", ToLast(']', Done))))
  const DEFAULTS := KeyPat("default_permissions", Run(Spaces, 0, false, Lit("{", Run(Except('}'), 0, true, Lit("}", Done)))))
  const NKEY := KeyPat("nkey", Run(Spaces, 0, false, Lit("\"", Run(Except('"'), 1, true, Lit("\"", Done)))))
  const COMMENT := Lit("#", Run(Spaces, 1, false, Run(NonSpaces, 1, true, Done)))
  const PERMS := KeyPat("permissions", Run(Spaces, 0, false, Lit("{", ToLast('}', Done))))
  const ALLOW_RESPONSES := KeyPat("allow_responses", Run(Spaces, 0, false, Either("true", "false", Done)))

  const BRACKETED := Lit("[", Run(Except(']'), 0, true, Lit("]", Done)))

  function AfterKey(keyword: string): Pat {
    Run(Spaces, 0, false, Lit("{", Run(Spaces, 0, false,
      Lit(keyword, Run(Spaces, 0, false, Lit(":", Run(Spaces, 0, false, BRACKETED)))))))
  }

  /** `(\w+)\s*:\s*\{\s*keyword\s*:\s*\[([^\]]*)\]`. */
  function ListPat(keyword: string): Pat { WordPat(Run(Spaces, 0, false, Lit(":", AfterKey(keyword)))) }

  /** `s.strip('"')`. */
  function StripQuotes(s: string): string
    decreases |s|
  {
    if s != "" && s[0] == '"' then StripQuotes(s[1..])
    else if s != "" && s[|s| - 1] == '"' then StripQuotes(s[..|s| - 1])
    else s
  }

  function CleanItems(items: seq<string>): seq<string> {
    if items == [] then []
    else (if Strip(items[0]) != "" then [StripQuotes(Strip(items[0]))] else []) + CleanItems(items[1..])
  }

  /** The first match whose word is the one asked for. */
  function FirstList(hits: seq<seq<string>>, word: string): seq<string> {
    if hits == [] then []
    else if |hits[0]| == 2 && hits[0][0] == word then CleanItems(Split(hits[0][1], ','))
    else FirstList(hits[1..], word)
  }

  function DenyList(block: string, word: string): seq<string> { FirstList(FindAll(ListPat("deny"), block), word) }

  function AllowSet(block: string, word: string): set<string> {
    set s | s in FirstList(FindAll(ListPat("allow"), block), word)
  }

  datatype ParsedUser = ParsedUser(
    nkey: string,
    publishAllow: set<string>,
    subscribeAllow: set<string>,
    allowResponses: bool,
    commentName: string)

  datatype ParsedConf = ParsedConf(publishDeny: seq<string>, subscribeDeny: seq<string>, users: seq<ParsedUser>)

  function Cap(h: Option<Hit>): string {
    if h.Some? && h.value.caps != [] then h.value.caps[0] else ""
  }

  function ParseUser(block: string): ParsedUser {
    var perm := Cap(Search(PERMS, block));
    ParsedUser(
      Cap(Search(NKEY, block)),
      AllowSet(perm, "publish"),
      AllowSet(perm, "subscribe"),
      Cap(Search(ALLOW_RESPONSES, perm)) == "true",
      Cap(Search(COMMENT, block)))
  }

  function Extend(cur: Option<string>, c: char): Option<string> {
    if cur.Some? then Some(cur.value + [c]) else None
  }

  /** The blocks still to come, given the brace depth and the block being read, if any. */
  function ScanBlocks(s: string, depth: int, cur: Option<string>): seq<string> {
    if s == "" then []
    else if s[0] == '{' then ScanBlocks(s[1..], depth + 1, if depth == 0 then Some("{") else Extend(cur, '{'))
    else if s[0] == '}' then
      if depth == 1 && cur.Some? then [cur.value + "}"] + ScanBlocks(s[1..], 0, None)
      else ScanBlocks(s[1..], depth - 1, Extend(cur, '}'))
    else ScanBlocks(s[1..], depth, Extend(cur, s[0]))
  }

  /** `_split_user_blocks`: top-level `{...}` blocks by brace depth. */
  method SplitUserBlocks(usersBlock: string) returns (blocks: seq<string>)
    ensures blocks == ScanBlocks(usersBlock, 0, None)
  {
    blocks := [];
    var depth, start := 0, -1;
    assert usersBlock[0..] == usersBlock;
    for i := 0 to |usersBlock|
      invariant -1 <= start < i || (start == -1 && i == 0)
      invariant blocks + ScanBlocks(usersBlock[i..], depth, if start == -1 then None else Some(usersBlock[start..i]))
                == ScanBlocks(usersBlock, 0, None)
    {
      var ch := usersBlock[i];
      assert usersBlock[i..][1..] == usersBlock[i + 1..];
      assert start != -1 ==> usersBlock[start..i + 1] == usersBlock[start..i] + [ch];
      assert usersBlock[i..i + 1] == [ch];
      if ch == '{' {
        if depth == 0 {
          start := i;
        }
        depth := depth + 1;
      } else if ch == '}' {
        depth := depth - 1;
        if depth == 0 && start != -1 {
          ConcatAssoc(blocks, [usersBlock[start..i + 1]], ScanBlocks(usersBlock[i + 1..], 0, None));
          blocks := blocks + [usersBlock[start..i + 1]];
          start := -1;
        }
      }
    }
  }

  function ParseAll(blocks: seq<string>): seq<ParsedUser> {
    seq(|blocks|, i requires 0 <= i < |blocks| => ParseUser(blocks[i]))
  }

  function ParseAuthConf(text: string): ParsedConf {
    var dp := Cap(Search(DEFAULTS, text));
    var usersBlock := Cap(Search(USERS, text));
    ParsedConf(DenyList(dp, "publish"), DenyList(dp, "subscribe"), ParseAll(ScanBlocks(usersBlock, 0, None)))
  }
}
