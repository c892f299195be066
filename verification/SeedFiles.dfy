/** Seeds on disk, and the `auth.conf` that belongs to them. */
module SeedFiles {
  import opened Text
  import opened AclMatrix
  import opened AuthConf

  /** The seeds directory: file name to contents. */
  type Files = map<string, string>

  const CONF := "auth.conf"

  function SeedFile(name: string): string { name + ".seed" }

  lemma SeedFilesDiffer(a: string, b: string)
    ensures SeedFile(a) == SeedFile(b) ==> a == b
    ensures SeedFile(a) != CONF && EndsWith(SeedFile(a), ".seed")
  {
    assert SeedFile(a)[..|a|] == a && SeedFile(b)[..|b|] == b;
    assert SeedFile(a)[|SeedFile(a)| - 1] == 'd' && CONF[|CONF| - 1] == 'f';
  }

  /** What `bytes.strip` removes. */
  predicate IsAsciiSpace(c: char) { '\t' <= c <= '\r' || c == ' ' }

  function RTrim(s: string): string {
    if s != "" && IsAsciiSpace(s[|s| - 1]) then RTrim(s[..|s| - 1]) else s
  }

  function LTrim(s: string): string {
    if s != "" && IsAsciiSpace(s[0]) then LTrim(s[1..]) else s
  }

  function Trim(s: string): string { LTrim(RTrim(s)) }

  /** What is written to the seed file: the seed as a line, with one newline added if it has none. */
  function SeedText(seed: string): (text: string)
    ensures EndsWith(text, "\n") && (text == seed || (text == seed + "\n" && !EndsWith(seed, "\n")))
  {
    if EndsWith(seed, "\n") then seed else seed + "\n"
  }

  /** `pubkey_from_seed`: key derivation is `pub`, applied to the seed without surrounding whitespace. */
  function PubkeyOf(pub: string -> string, seed: string): string { pub(Trim(seed)) }

  const BLANKS: set<char> := {' ', '\t', '\n', '\r', '\U{000B}', '\U{000C}'}

  predicate Blank(s: string) { forall k | 0 <= k < |s| :: s[k] in BLANKS }

  /** White space around a seed does not matter. */
  lemma SeedInside(pub: string -> string, before: string, seed: string, after: string)
    requires Blank(before) && Blank(after)
    requires seed == "" || (seed[0] !in BLANKS && seed[|seed| - 1] !in BLANKS)
    ensures PubkeyOf(pub, before + seed + after) == pub(seed)
  {
    RTrimBlanks(before + seed, after);
    if seed == "" {
      RTrimBlanks("", before);
      assert before + seed == before && "" + before == before;
    } else {
      assert (before + seed)[|before + seed| - 1] == seed[|seed| - 1];
      assert RTrim(before + seed) == before + seed;
      LTrimBlanks(before, seed);
    }
  }

  lemma {:induction false} RTrimBlanks(s: string, blanks: string)
    requires Blank(blanks)
    ensures RTrim(s + blanks) == RTrim(s)
  {
    if blanks == "" {
      assert s + blanks == s;
    } else {
      var n := |blanks| - 1;
      assert (s + blanks)[..|s| + n] == s + blanks[..n] && (s + blanks)[|s| + n] == blanks[n];
      RTrimBlanks(s, blanks[..n]);
    }
  }

  lemma {:induction false} LTrimBlanks(blanks: string, s: string)
    requires Blank(blanks) && (s == "" || s[0] !in BLANKS)
    ensures LTrim(blanks + s) == s
  {
    if blanks == "" {
      assert blanks + s == s;
    } else {
      assert (blanks + s)[1..] == blanks[1..] + s;
      LTrimBlanks(blanks[1..], s);
    }
  }

  const KEY_LENGTH := 56

  /** `pubkey_from_seed` raises for every other seed. */
  predicate ValidKey(pub: string -> string, seed: string) { |PubkeyOf(pub, seed)| == KEY_LENGTH }

  /** The seeds of these identities are on disk and give keys. */
  predicate KeysValid(pub: string -> string, names: set<string>, files: Files) {
    forall n | n in names :: SeedFile(n) in files && ValidKey(pub, files[SeedFile(n)])
  }

  /** The key computed from the generated seed is the key of the file that was written. */
  lemma PubkeyOfText(pub: string -> string, seed: string)
    ensures PubkeyOf(pub, SeedText(seed)) == PubkeyOf(pub, seed)
  {
    assert (seed + "\n")[..|seed|] == seed;
  }

  predicate HasSeeds(m: Matrix, files: Files) {
    forall name | name in ActiveNames(m.identities) :: SeedFile(name) in files
  }

  /** The public keys of the seeds on disk. */
  function KeysOn(m: Matrix, pub: string -> string, files: Files): map<string, string>
    requires HasSeeds(m, files)
  {
    map name | name in ActiveNames(m.identities) :: PubkeyOf(pub, files[SeedFile(name)])
  }

  lemma KeysOnHas(m: Matrix, pub: string -> string, files: Files)
    requires HasSeeds(m, files)
    ensures HasKeys(m, KeysOn(m, pub, files))
  {
  }

  /** The `auth.conf` of the seeds on disk. */
  function Rendering(m: Matrix, pub: string -> string, files: Files): string
    requires ValidMatrix(m) && HasSeeds(m, files)
  {
    KeysOnHas(m, pub, files);
    ConfText(UsersOf(m, KeysOn(m, pub, files), m.identities))
  }

  /** Every active identity has a seed, and `auth.conf` is the rendering of the seeds on disk. */
  predicate Provisioned(m: Matrix, pub: string -> string, files: Files)
    requires ValidMatrix(m)
  {
    HasSeeds(m, files) && CONF in files && files[CONF] == Rendering(m, pub, files)
  }

  /** What is in a provisioned directory, by file name. */
  lemma ProvisionedFiles(m: Matrix, pub: string -> string, files: Files)
    requires ValidMatrix(m) && Provisioned(m, pub, files)
    ensures "auth.conf" in files && files["auth.conf"] == Rendering(m, pub, files)
    ensures forall e | e in m.identities && e.id.status == Active :: e.name + ".seed" in files
  {
    hide Rendering, ValidMatrix;
    forall e | e in m.identities && e.id.status == Active
      ensures e.name + ".seed" in files
    {
      assert e.name in ActiveNames(m.identities);
      assert SeedFile(e.name) in files;
    }
  }

  /** Writing the rendering of the seeds' keys makes the directory provisioned. */
  lemma WriteConf(m: Matrix, pub: string -> string, files: Files, pubkeys: map<string, string>)
    requires ValidMatrix(m) && pubkeys.Keys == ActiveNames(m.identities)
    requires forall name | name in pubkeys :: SeedFile(name) in files && pubkeys[name] == PubkeyOf(pub, files[SeedFile(name)])
    ensures HasKeys(m, pubkeys)
    ensures Provisioned(m, pub, files[CONF := ConfText(UsersOf(m, pubkeys, m.identities))])
  {
    hide ConfText, UsersOf, PubkeyOf, ValidMatrix;
    var after := files[CONF := ConfText(UsersOf(m, pubkeys, m.identities))];
    forall name | name in pubkeys
      ensures SeedFile(name) in after && after[SeedFile(name)] == files[SeedFile(name)]
    {
      SeedFilesDiffer(name, name);
    }
    assert KeysOn(m, pub, after) == pubkeys;
  }

  /** The rendering depends on the active identities' seeds only. */
  lemma SameSeedsSameRendering(m: Matrix, pub: string -> string, a: Files, b: Files)
    requires ValidMatrix(m) && HasSeeds(m, a) && HasSeeds(m, b)
    requires forall name | name in ActiveNames(m.identities) :: a[SeedFile(name)] == b[SeedFile(name)]
    ensures Rendering(m, pub, a) == Rendering(m, pub, b)
  {
    hide ConfText, UsersOf, PubkeyOf, ValidMatrix;
    assert KeysOn(m, pub, a) == KeysOn(m, pub, b);
  }

  /** Names of the active identities, in matrix order. */
  function ActiveList(es: seq<Entry>): seq<string> {
    if es == [] then []
    else
      var n := |es| - 1;
      ActiveList(es[..n]) + if es[n].id.status == Active then [es[n].name] else []
  }

  lemma {:induction false} ActiveListNames(es: seq<Entry>)
    ensures forall name :: name in ActiveList(es) <==> name in ActiveNames(es)
  {
    if es != [] {
      var n := |es| - 1;
      ActiveListNames(es[..n]);
      assert es == es[..n] + [es[n]];
      ActiveSnoc(es[..n], es[n]);
    }
  }
}
