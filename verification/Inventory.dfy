/** The semantic oracle for backtick tokens in documentation. */
module Inventory {
  import opened Text
  import opened Nats

  datatype Kind = KModule | KSymbol | KSubject | KPath | KUnknown

  datatype Verdict = Verdict(live: bool, kind: Kind)

  /** `symbols` maps a name to the modules that define or import it. `files` are the candidate paths, relative to
      the root, that name something inside it; `packages` the directories under `packages/`. `upper` and `digits`
      are the Unicode classes of `str.isupper` and `\d`. */
  datatype CodeInventory = CodeInventory(
    modules: set<string>,
    symbols: map<string, set<string>>,
    subjects: set<string>,
    builtins: set<string>,
    externals: set<string>,
    prefixes: set<string>,
    files: set<string>,
    packages: set<string>,
    upper: set<char>,
    digits: set<char>)

  // ---------------------------------------------------------------------------------------------
  // Token shapes
  // ---------------------------------------------------------------------------------------------

  predicate Contains(s: string, t: string) { exists i :: 0 <= i <= |s| && StartsWith(s[i..], t) }

  predicate IsPath(t: string) { StartsWith(t, "src/") || StartsWith(t, "packages/") }

  /** `re.search(r":\d", t)`. */
  predicate HasLineNumber(inv: CodeInventory, t: string) {
    exists i :: 0 <= i < |t| - 1 && t[i] == ':' && t[i + 1] in inv.digits
  }

  /** `_is_template_token`; the two patterns for `lyra.*` are special cases of a star outside a path. */
  predicate IsTemplate(inv: CodeInventory, t: string) {
    || '<' in t || '{' in t || '|' in t || '(' in t || ')' in t || Contains(t, "::")
    || (if IsPath(t) then '*' in t || '?' in t || HasLineNumber(inv, t) else '/' in t || '*' in t)
  }

  /** `str.lower`, as far as the ASCII prefixes compared with can tell: the Kelvin sign becomes a `k` too. */
  function LowerChar(c: char): char {
    if IsUpper(c) then (c as int + 32) as char else if c as int == 0x212A then 'k' else c
  }

  function Lower(s: string): string { seq(|s|, i requires 0 <= i < |s| => LowerChar(s[i])) }

  predicate OwnedByNats(lower: string) {
    StartsWith(lower, "$js.") || StartsWith(lower, "$kv.") || StartsWith(lower, "_inbox.") || StartsWith(lower, "lyra.")
  }

  /** The token begins with `p`, in whatever case; the Kelvin sign is one of the letters k. */
  predicate AheadAnyCase(t: string, p: string) {
    |p| <= |t| && forall k | 0 <= k < |p| ::
                    || (t[k] == p[k] && !IsUpper(t[k])) || (IsUpper(t[k]) && t[k] as int + 32 == p[k] as int)
                    || (t[k] as int == 0x212A && p[k] == 'k')
  }

  lemma LowerAhead(t: string, p: string)
    requires forall k | 0 <= k < |p| :: p[k] as int < 0x80
    ensures StartsWith(Lower(t), p) <==> AheadAnyCase(t, p)
  {
    var l := Lower(t);
    if |p| <= |t| {
      assert forall k | 0 <= k < |p| :: l[..|p|][k] == LowerChar(t[k]);
    }
  }

  /** The namespaces that NATS itself or a retired project owns. */
  predicate ForeignNamespace(t: string) {
    exists p | p in {"$js.", "$kv.", "_inbox.", "lyra."} :: AheadAnyCase(t, p)
  }

  lemma NamespaceMeaning(t: string)
    ensures OwnedByNats(Lower(t)) <==> ForeignNamespace(t)
    ensures StartsWith(Lower(t), "factory.") <==> AheadAnyCase(t, "factory.")
  {
    hide AheadAnyCase, StartsWith, Lower;
    LowerAhead(t, "$js.");
    LowerAhead(t, "$kv.");
    LowerAhead(t, "_inbox.");
    LowerAhead(t, "lyra.");
    LowerAhead(t, "factory.");
  }

  /** A pattern or a quotation rather than a name: some character that no name has. */
  predicate NotAName(inv: CodeInventory, t: string) {
    || (exists k | 0 <= k < |t| :: t[k] in {'<', '{', '|', '(', ')'})
    || (exists k | 0 < k < |t| :: t[k - 1] == ':' && t[k] == ':')
    || (!IsPath(t) && exists k | 0 <= k < |t| :: t[k] in {'/', '*'})
    || (IsPath(t) && exists k | 0 <= k < |t| :: t[k] in {'*', '?'} || (k > 0 && t[k - 1] == ':' && t[k] in inv.digits))
  }

  lemma TwoColons(t: string)
    ensures Contains(t, "::") <==> exists k | 0 < k < |t| :: t[k - 1] == ':' && t[k] == ':'
  {
    assert "::" == [':', ':'];
    if Contains(t, "::") {
      var i :| 0 <= i <= |t| && StartsWith(t[i..], "::");
      assert t[i..][..2] == "::" && t[i..][0] == t[i] && t[i..][1] == t[i + 1];
      assert t[i + 1 - 1] == ':' && t[i + 1] == ':';
    }
    if k :| 0 < k < |t| && t[k - 1] == ':' && t[k] == ':' {
      assert t[k - 1..][..2] == "::";
    }
  }

  lemma LineNumberAt(inv: CodeInventory, t: string)
    ensures HasLineNumber(inv, t) <==> exists k | 0 < k < |t| :: t[k - 1] == ':' && t[k] in inv.digits
  {
    if HasLineNumber(inv, t) {
      var i :| 0 <= i < |t| - 1 && t[i] == ':' && t[i + 1] in inv.digits;
      assert t[i + 1 - 1] == ':' && t[i + 1] in inv.digits;
    }
    if k :| 0 < k < |t| && t[k - 1] == ':' && t[k] in inv.digits {
      assert t[k - 1] == ':' && t[k - 1 + 1] in inv.digits;
    }
  }

  lemma TemplateMeaning(inv: CodeInventory, t: string)
    ensures IsTemplate(inv, t) <==> NotAName(inv, t)
  {
    TwoColons(t);
    LineNumberAt(inv, t);
    hide Contains, HasLineNumber, IsPath;
  }

  // ---------------------------------------------------------------------------------------------
  // Dotted tokens
  // ---------------------------------------------------------------------------------------------

  predicate Scoped(inv: CodeInventory, prefix: string, suffix: string) {
    prefix in inv.modules && suffix in inv.symbols && prefix in inv.symbols[suffix]
  }

  predicate UpperInitial(inv: CodeInventory, part: string) { part != "" && part[0] in inv.upper }

  function Prefix(parts: seq<string>, k: nat): string
    requires k <= |parts|
  {
    Join(".", parts[..k])
  }

  function Suffix(parts: seq<string>, k: nat): string
    requires k <= |parts|
  {
    Join(".", parts[k..])
  }

  /** The split scan from `split` down; `None` falls through. */
  function AtSplit(inv: CodeInventory, token: string, parts: seq<string>, split: nat): Option<Verdict>
    requires split < |parts|
  {
    if split == 0 then None
    else if Prefix(parts, split) !in inv.modules then AtSplit(inv, token, parts, split - 1)
    else if Scoped(inv, Prefix(parts, split), Suffix(parts, split)) then Some(Verdict(true, KSymbol))
    else if |parts| - split == 1 && UpperInitial(inv, parts[split]) then
      Some(if MatchesAny(token, inv.subjects) then Verdict(true, KSubject) else Verdict(false, KSymbol))
    else None
  }

  /** `_resolve_symbol_at_split`. */
  method ResolveSymbolAtSplit(inv: CodeInventory, token: string, parts: seq<string>) returns (v: Option<Verdict>)
    requires parts != []
    ensures v == AtSplit(inv, token, parts, |parts| - 1)
  {
    hide MatchesAny, Prefix, Suffix;
    var split := |parts| - 1;
    while split > 0
      invariant 0 <= split < |parts|
      invariant AtSplit(inv, token, parts, split) == AtSplit(inv, token, parts, |parts| - 1)
    {
      var prefix := Prefix(parts, split);
      var suffix := Suffix(parts, split);
      if prefix !in inv.modules {
        split := split - 1;
        continue;
      }
      if suffix in inv.symbols && prefix in inv.symbols[suffix] {
        return Some(Verdict(true, KSymbol));
      }
      if |parts| - split == 1 && UpperInitial(inv, parts[split]) {
        return Some(if MatchesAny(token, inv.subjects) then Verdict(true, KSubject) else Verdict(false, KSymbol));
      }
      break;
    }
    v := None;
  }

  /** Some proper prefix of two or more segments is a module. */
  predicate HasModulePrefix(inv: CodeInventory, parts: seq<string>) {
    exists k :: 2 <= k < |parts| && Prefix(parts, k) in inv.modules
  }

  function DeadNamespace(inv: CodeInventory, token: string, parts: seq<string>): Option<Verdict> {
    if OwnedByNats(Lower(token)) then Some(Verdict(false, KSubject))
    else if StartsWith(Lower(token), "factory.") then
      Some(Verdict(false, if HasModulePrefix(inv, parts) then KModule else KSubject))
    else None
  }

  function ResolveDotted(inv: CodeInventory, token: string): Verdict {
    var parts := Toks(token);
    var n := |parts| - 1;
    if token in inv.modules then Verdict(true, KModule)
    else if AtSplit(inv, token, parts, n).Some? then AtSplit(inv, token, parts, n).value
    else if Scoped(inv, Prefix(parts, n), parts[n]) then Verdict(true, KSymbol)
    else if MatchesAny(token, inv.subjects) then Verdict(true, KSubject)
    else if DeadNamespace(inv, token, parts).Some? then DeadNamespace(inv, token, parts).value
    else if parts[0] in inv.prefixes then Verdict(false, KModule)
    else Verdict(false, KUnknown)
  }

  // ---------------------------------------------------------------------------------------------
  // Bare words and paths
  // ---------------------------------------------------------------------------------------------

  predicate AllCaps(t: string) {
    |t| >= 2 && IsUpper(t[0]) && forall k | 1 <= k < |t| :: IsUpper(t[k]) || IsDigit(t[k]) || t[k] == '_'
  }

  predicate PascalCase(t: string) {
    t != "" && IsUpper(t[0]) && (forall k | 0 <= k < |t| :: IsAlnum(t[k])) && exists k :: 1 <= k < |t| && IsLower(t[k])
  }

  function ResolveBare(inv: CodeInventory, t: string): Verdict {
    if t in inv.builtins then Verdict(true, KSymbol)
    else if t in inv.symbols then Verdict(true, KSymbol)
    else if AllCaps(t) then Verdict(false, KUnknown)
    else if PascalCase(t) then Verdict(false, if t in inv.externals then KUnknown else KSymbol)
    else Verdict(false, KUnknown)
  }

  function ResolvePath(inv: CodeInventory, t: string): Verdict {
    if ".." in Split(t, '/') then Verdict(false, KPath)
    else if t in inv.files then Verdict(true, KPath)
    else Verdict(StartsWith(t, "src/") && exists p | p in inv.packages :: "packages/" + p + "/" + t in inv.files, KPath)
  }

  predicate LooksLikeSubject(inv: CodeInventory, t: string) {
    OwnedByNats(Lower(t)) || StartsWith(Lower(t), "factory.") || t in inv.subjects
  }

  /** `resolve`. */
  function Resolve(inv: CodeInventory, token: string): Verdict {
    var t := Strip(token);
    if t == "" || |t| > 200 || IsTemplate(inv, t) then Verdict(false, KUnknown)
    else if IsPath(t) then ResolvePath(inv, t)
    else if '.' in t then ResolveDotted(inv, t)
    else if LooksLikeSubject(inv, t) then Verdict(MatchesAny(t, inv.subjects), KSubject)
    else ResolveBare(inv, t)
  }

  // ---------------------------------------------------------------------------------------------
  // What resolves
  // ---------------------------------------------------------------------------------------------

  /** Names of definitions and imports are identifiers. */
  predicate PlainNames(inv: CodeInventory) { forall name | name in inv.symbols :: '.' !in name }

  /** The token is `module.name` for a name scoped to that module, at some dot. */
  predicate ScopedAnywhere(inv: CodeInventory, parts: seq<string>) {
    exists k :: 0 < k < |parts| && Scoped(inv, Prefix(parts, k), Suffix(parts, k))
  }

  lemma SuffixHasDot(parts: seq<string>, k: nat)
    requires k < |parts| - 1
    ensures '.' in Suffix(parts, k)
  {
    assert Suffix(parts, k) == parts[k..][0] + "." + Join(".", parts[k..][1..]);
  }

  lemma LastSuffix(parts: seq<string>)
    requires parts != []
    ensures Suffix(parts, |parts| - 1) == parts[|parts| - 1]
  {
    assert parts[|parts| - 1..] == [parts[|parts| - 1]];
  }

  /** With plain names only the last dot can scope a symbol. */
  lemma ScopedAtLast(inv: CodeInventory, parts: seq<string>)
    requires PlainNames(inv) && parts != []
    ensures ScopedAnywhere(inv, parts)
            <==> |parts| > 1 && Scoped(inv, Prefix(parts, |parts| - 1), parts[|parts| - 1])
  {
    hide Prefix, Suffix;
    LastSuffix(parts);
    forall k | 0 < k < |parts| - 1
      ensures !Scoped(inv, Prefix(parts, k), Suffix(parts, k))
    {
      SuffixHasDot(parts, k);
    }
  }

  /** Below the last split, the scan never gives a verdict. */
  lemma {:induction false} NoVerdictBelow(inv: CodeInventory, token: string, parts: seq<string>, split: nat)
    requires PlainNames(inv) && split < |parts| - 1
    ensures AtSplit(inv, token, parts, split).None?
  {
    hide Prefix, Suffix, MatchesAny;
    if split > 0 {
      SuffixHasDot(parts, split);
      NoVerdictBelow(inv, token, parts, split - 1);
    }
  }

  /** What the scan returns, without the scan. */
  lemma SplitVerdict(inv: CodeInventory, token: string, parts: seq<string>)
    requires PlainNames(inv) && |parts| > 1
    ensures var n := |parts| - 1;
            AtSplit(inv, token, parts, n)
            == if Scoped(inv, Prefix(parts, n), parts[n]) then Some(Verdict(true, KSymbol))
               else if Prefix(parts, n) in inv.modules && UpperInitial(inv, parts[n]) then
                 Some(if MatchesAny(token, inv.subjects) then Verdict(true, KSubject) else Verdict(false, KSymbol))
               else None
  {
    hide Prefix, Suffix, MatchesAny;
    LastSuffix(parts);
    NoVerdictBelow(inv, token, parts, |parts| - 2);
  }

  lemma OneTokenNoDot(t: string)
    requires |Toks(t)| == 1
    ensures '.' !in t
  {
    SplitParts(t, '.');
    JoinSplit(t, '.');
    assert Toks(t)[0] in Toks(t);
  }

  lemma DotMeansParts(t: string)
    requires '.' in t
    ensures |Toks(t)| > 1
  {
    if |Toks(t)| == 1 {
      OneTokenNoDot(t);
    }
  }

  /** A dotted token is live exactly when it is a module, a name scoped to its prefix module, or a matching subject. */
  lemma DottedLive(inv: CodeInventory, t: string)
    requires PlainNames(inv) && '.' in t
    ensures ResolveDotted(inv, t).live
            <==> t in inv.modules || ScopedAnywhere(inv, Toks(t)) || MatchesAny(t, inv.subjects)
  {
    hide MatchesAny, Toks, Prefix, AtSplit, Scoped, DeadNamespace, ScopedAnywhere;
    DotMeansParts(t);
    SplitVerdict(inv, t, Toks(t));
    ScopedAtLast(inv, Toks(t));
    DeadIsDead(inv, t, Toks(t));
  }

  lemma DeadIsDead(inv: CodeInventory, t: string, parts: seq<string>)
    ensures DeadNamespace(inv, t, parts).Some? ==> !DeadNamespace(inv, t, parts).value.live
  {
  }

  /** What a dead dotted token is reported as. A class reference into a real module is a dead symbol; then the
      namespaces NATS owns; then `factory.`, where a module prefix of two or more segments decides between module
      and subject; then the other project prefixes. */
  lemma DottedDeadKind(inv: CodeInventory, t: string)
    requires PlainNames(inv) && '.' in t && !ResolveDotted(inv, t).live
    ensures var parts := Toks(t);
            ResolveDotted(inv, t).kind
            == if Prefix(parts, |parts| - 1) in inv.modules && parts[|parts| - 1] != "" && parts[|parts| - 1][0] in inv.upper
               then KSymbol
               else if ForeignNamespace(t) then KSubject
               else if AheadAnyCase(t, "factory.") then (if HasModulePrefix(inv, parts) then KModule else KSubject)
               else if parts[0] in inv.prefixes then KModule
               else KUnknown
  {
    hide MatchesAny, Toks, Prefix, AtSplit, Scoped, OwnedByNats, Lower, HasModulePrefix, StartsWith, ForeignNamespace, AheadAnyCase;
    NamespaceMeaning(t);
    DotMeansParts(t);
    SplitVerdict(inv, t, Toks(t));
  }

  /** What a live dotted token is reported as. */
  lemma DottedLiveKind(inv: CodeInventory, t: string)
    requires PlainNames(inv) && '.' in t && ResolveDotted(inv, t).live
    ensures ResolveDotted(inv, t).kind
            == if t in inv.modules then KModule else if ScopedAnywhere(inv, Toks(t)) then KSymbol else KSubject
  {
    hide MatchesAny, Toks, Prefix, AtSplit, Scoped, DeadNamespace, ScopedAnywhere;
    DotMeansParts(t);
    SplitVerdict(inv, t, Toks(t));
    ScopedAtLast(inv, Toks(t));
    DeadIsDead(inv, t, Toks(t));
  }

  lemma PrefixHasDot(s: string, p: string)
    requires p != "" && p[|p| - 1] == '.' && StartsWith(s, p)
    ensures '.' in s
  {
    assert s[|p| - 1] == p[|p| - 1];
  }

  lemma NoDotNoNamespace(t: string)
    requires '.' !in t
    ensures !OwnedByNats(Lower(t)) && !StartsWith(Lower(t), "factory.")
  {
    assert '.' !in Lower(t);
    forall p | p in ["$js.", "$kv.", "_inbox.", "lyra.", "factory."]
      ensures !StartsWith(Lower(t), p)
    {
      assert p[|p| - 1] == '.';
      if StartsWith(Lower(t), p) {
        PrefixHasDot(Lower(t), p);
      }
    }
  }

  /** Every token: what makes it live. */
  lemma LiveExactly(inv: CodeInventory, token: string)
    requires PlainNames(inv)
    ensures var t := Strip(token);
            Resolve(inv, token).live
            <==> && t != "" && |t| <= 200 && !NotAName(inv, t)
                 && if IsPath(t) then
                      && ".." !in Split(t, '/')
                      && (t in inv.files || (StartsWith(t, "src/") && exists p | p in inv.packages :: "packages/" + p + "/" + t in inv.files))
                    else if '.' in t then t in inv.modules || ScopedAnywhere(inv, Toks(t)) || MatchesAny(t, inv.subjects)
                    else t in inv.subjects || t in inv.builtins || t in inv.symbols
  {
    hide IsTemplate, NotAName, IsPath, ResolveDotted, Strip, OwnedByNats, Lower, AllCaps, PascalCase, Toks, ScopedAnywhere;
    var t := Strip(token);
    TemplateMeaning(inv, t);
    if '.' in t {
      DottedLive(inv, t);
    } else {
      NoDotNoNamespace(t);
    }
  }

  /** A capital, then letters and digits, a small letter among them. */
  ghost predicate ClassName(t: string) {
    exists a: string, b: string, c: char ::
      && t == a + [c] + b && 'a' <= c <= 'z' && a != "" && 'A' <= a[0] <= 'Z'
      && forall x: char | x in a || x in b :: 'a' <= x <= 'z' || 'A' <= x <= 'Z' || '0' <= x <= '9'
  }

  lemma ClassMeaning(t: string)
    ensures PascalCase(t) <==> ClassName(t)
  {
    if PascalCase(t) {
      var k :| 1 <= k < |t| && IsLower(t[k]);
      assert t == t[..k] + [t[k]] + t[k + 1..];
    }
    if ClassName(t) {
      var a: string, b: string, c: char :|
        && t == a + [c] + b && 'a' <= c <= 'z' && a != "" && 'A' <= a[0] <= 'Z'
        && forall x: char | x in a || x in b :: 'a' <= x <= 'z' || 'A' <= x <= 'Z' || '0' <= x <= '9';
      assert t[|a|] == c;
      forall k | 0 <= k < |t|
        ensures IsAlnum(t[k])
      {
        assert k < |a| ==> t[k] == a[k] && a[k] in a;
        assert k > |a| ==> t[k] == b[k - |a| - 1] && b[k - |a| - 1] in b;
      }
    }
  }

  /** Every other token: what it is reported as, live or dead. A dead bare word is a symbol only when it is written as a
      class name that no external package provides. */
  lemma KindExactly(inv: CodeInventory, token: string)
    requires '.' !in Strip(token) || IsPath(Strip(token)) || |Strip(token)| > 200 || NotAName(inv, Strip(token))
    ensures var t := Strip(token);
            Resolve(inv, token).kind
            == if t == "" || |t| > 200 || NotAName(inv, t) then KUnknown
               else if IsPath(t) then KPath
               else if t in inv.subjects then KSubject
               else if t in inv.builtins || t in inv.symbols || (ClassName(t) && t !in inv.externals) then KSymbol
               else KUnknown
  {
    ClassMeaning(Strip(token));
    hide IsTemplate, NotAName, IsPath, ResolveDotted, Strip, OwnedByNats, Lower, Toks, MatchesAny;
    var t := Strip(token);
    TemplateMeaning(inv, t);
    if '.' !in t {
      NoDotNoNamespace(t);
    }
    if PascalCase(t) {
      var k :| 1 <= k < |t| && IsLower(t[k]);
      assert !AllCaps(t);
    }
  }

  // ---------------------------------------------------------------------------------------------
  // Growth
  // ---------------------------------------------------------------------------------------------

  predicate Grows(a: CodeInventory, b: CodeInventory) {
    && a.modules <= b.modules && a.subjects <= b.subjects
    && (forall name | name in a.symbols :: name in b.symbols && a.symbols[name] <= b.symbols[name])
    && b == a.(modules := b.modules, symbols := b.symbols, subjects := b.subjects)
  }

  lemma ScopedGrows(a: CodeInventory, b: CodeInventory, parts: seq<string>)
    requires Grows(a, b) && ScopedAnywhere(a, parts)
    ensures ScopedAnywhere(b, parts)
  {
    var k :| 0 < k < |parts| && Scoped(a, Prefix(parts, k), Suffix(parts, k));
    assert Scoped(b, Prefix(parts, k), Suffix(parts, k));
  }

  /** More modules, symbols or subjects never turn a live token dead. */
  lemma GrowthKeepsLive(a: CodeInventory, b: CodeInventory, token: string)
    requires PlainNames(a) && PlainNames(b) && Grows(a, b) && Resolve(a, token).live
    ensures Resolve(b, token).live
  {
    var t := Strip(token);
    LiveExactly(a, token);
    LiveExactly(b, token);
    SameShape(a, b, t);
    if ScopedAnywhere(a, Toks(t)) {
      ScopedGrows(a, b, Toks(t));
    }
    if MatchesAny(t, a.subjects) {
      MatchesGrow(t, a.subjects, b.subjects);
    }
    hide IsTemplate, NotAName, IsPath, Resolve, Strip, Toks, MatchesAny, ScopedAnywhere;
  }

  lemma SameShape(a: CodeInventory, b: CodeInventory, t: string)
    requires Grows(a, b)
    ensures NotAName(a, t) == NotAName(b, t)
  {
  }

  lemma MatchesGrow(t: string, a: set<string>, b: set<string>)
    requires a <= b && MatchesAny(t, a)
    ensures MatchesAny(t, b)
  {
    hide Matches;
  }
}
