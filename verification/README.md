# Factory repository: verified models of its text rewriting, ACL and state-keeping code

Dafny 4.11 models of the parts of the repository whose correctness is easiest to get wrong, with proofs that hold for
every input, every run and every point of failure. `dafny verify dfyconfig.toml` checks all of it.

**Archive wave** (`tools/archive_artifacts_wave.py`). The wave moves closed artifacts to `artifacts/archive/<month>/`
and rewrites every link to them. `PathTokens` is the token pattern in its backtracking order, `TokenScan` the scan,
`PosixPaths` the `normpath`/`join`/`relpath` algebra, `LinkRewrite` the resolver and rewriter, `FileMoves` a list of moves
in a tree of files, `ArchiveWave` the planner and the in-place application, where every write and every move may fail or
be killed. By default a file is moved with `git mv`, which refuses a taken destination: the run stops there with all texts
rewritten and the moves before it done. With `--no-git` it is moved with `os.replace`, which overwrites. `LinkTheorems` and
`WaveTheorems` prove that rewriting a file leaves no link to a path that moved, that every rewritten link arrives at the
moved file in the style it was written, when a wave finishes and when it loses a file. `Census` reads an artifact's issue
from its text or name, and `IssuePatterns` says which lines and names give one. `WaveResume` and `WaveRerun` prove what a second run, which lists and plans the tree from the start,
makes of a run that was cut short; `WaveLinks` what becomes of the links the tool does not rewrite.

**ACL** (`scripts/_effective.py`, `scripts/_renderer.py`, `scripts/render_acl_parity.py`, the matcher of
`tools/code_inventory.py`). `AclMatrix` expands a matrix into effective grants and flattens it, `AuthConf` renders and
parses `auth.conf`, `Nats` is the wildcard matching of the NATS "Subject-Based Messaging" documentation beside the
string test of the grant gates. `AuthConfTheorems` goes from matrix to rendered text to parsed users to permitted
subjects.

**Provisioning** (`scripts/_modes.py`). `Keystore` is the seeds directory, its backups and the rotation log, changed
one step at a time. What strikes a run, an exception, an interrupt or a kill, is an input of it; at which step it
strikes, and what is half done then, is left open; without it a run ends as the seeds and the directory say, and a seed
that gives no valid key always raises. `AddIdentity` is the single-identity mode over the same store.
`ProvisionTheorems` proves recovery over any sequence of failing and repeated runs.

**Canonical texts and oracles.** `Soul` and `SoulTheorems` (`src/factory/core/persona.py`), `CodesSync` and
`CodesSyncTheorems` (`packages/roxabi-contracts/scripts/check_codes_sync.py`; `CodesSyncPatterns` says which lines are
headings and rows), `Inventory` (`resolve` in `tools/code_inventory.py`). `Text`, `TextLines` and `Utf8` are Python's
`split`, `join`, `strip`, `sorted`, `splitlines` and `encode`.

**State and gates.** `RateLimit` (`src/factory/dashboard/security.py`), `StreamTokens`
(`src/factory/dashboard/stream_tokens.py`), `Migration` and `MigrationTheorems`
(`src/factory/bootstrap/bootstrap_store_migrations.py`), `PytestGates` (`tools/pytest_partitions.py` and the two
`check_pytest_*` gates).

## Where the code does less than it says

The lemmas named prove what does hold for all inputs. Where a property depends on the input or the run, they give the
exact condition, or a run that violates it.

- A plan can come out broken although every rewritten link is right: exactly if a file that itself moves contains a token
  that resolves to a moved path from its new directory and did not from its old one (`CleanExactly`, `BrokenExactly`;
  `BrokenPlan` has such a token, `../../analyses/x.md` in `artifacts/frames`).
- The docstring of `build_plan` says that a plan that is not broken leaves no broken link. That is so for links to files
  that move. A relative link from a file that moves to one that does not is kept as it is, and always changes what it
  points at (`UnmovedTargetsTurn`); a clean plan leaves such a link dead (`CleanPlanDeadLink`).
- Two moved files with the same basename collide, and so does a file with one already in the archive. With `--no-git` the
  later overwrites the earlier, and files are kept exactly when nothing collides (`NoFileLostExactly`,
  `CollisionsAreSharedBasenames`). With `git mv` no file is ever lost, but a run that is not cut short finishes exactly
  when nothing collides, and otherwise exits with 1 half-way, although its plan was clean (`RunWave`).
- `subject_covered` and the token matcher agree on every subject exactly for grants of the documented shapes and for
  grants with an interior `>` that end in neither `.>` nor `.*` (`AgreeExactly`; `InnerStarMatchedNotCovered`,
  `InteriorGtCoveredNotMatched`).
- `parse_auth_conf` reads back one of the two default denials; its lazy pattern stops inside the block
  (`DefaultsReadBack`). The rendered text denies both ways (`DefaultsDenyAll`).
- `_mode_full_provision` says nothing after the flush point can trigger a rollback. An interrupt during the flush does,
  and so does any exception the shell bridge does not catch: the seeds are restored and the lines already appended stay
  (`LogOutlivesRollback`). Before the flush point the log never changes (`RegenerateGuarantees`). A rollback is sure to
  leave the log alone exactly if no identity is active, the backup's name is taken or some generated seed gives no key, so
  that no run comes to the flush (`RollbackKeepsLogExactly`).
- `_backup_seeds` deletes the directory outside the rollback; what holds at every point is that the old contents are
  still in place or complete in the backup (`RegenerateGuarantees`).
- `--add-identity` logs a generated seed only in the run that generated it: if that run ends before the append, the next
  one reports `repaired` and the seed has no entry, ever (`SeedLoggedExactly`, `UnloggedSeed`). A seed is sure to be logged
  exactly where none can be generated: NAME has one, or another active identity's seed gives no key
  (`LoggedForSureExactly`).
- `--add-identity` recovers from a failure at any step exactly when NAME had no block yet, or the directory was already
  provisioned, or no run can report at all, because NAME has no seed and another active identity's seed gives no key; after
  a kill, a stale block makes the next run report that there is nothing to do (`RecoversExactly`, `StaleBlock`).
- The partition gate takes a partition without tests for a failed collection and exits with 2, while the layout gate accepts
  it (`LayoutImpliesPartitions`, `WithoutMarker`).
- A table holds a registry exactly if every code, domain and description fits its cell; `--write` writes any other registry
  too, and `--check` then reports it (`RenderedInSyncExactly`).
- A second run makes up for any stop of an archive wave except one inside a write. There the torn file keeps its torn text,
  and if that gives its issue as open where it was closed, or the other way round, the second run makes other moves
  (`RunFromLeft`, `RunFromTorn`).
- `merge_soul_sections` is undone by the parser exactly when no section body has a header line in it or a line break
  other than newline (`MergeRoundTrip`); everything the parser itself returns is like that (`Canonical`).
- A start-up discards any destination database whose sentinel is missing or cannot be read, including one the stores
  created themselves while `auth.db` was absent (`DestinationKeptExactly`).

## Model

| member | source | states |
|---|---|---|
| PathTokens.MatchAtLongest | tools/archive_artifacts_wave.py:79-85 | The backtracking pattern returns the longest string of the token language that starts there and ends at a right boundary, and nothing when there is none |
| PathTokens.ValidMeaning | tools/archive_artifacts_wave.py:79-85 | That language, spelled out in characters: a relative path without empty components to a markdown file with more than an extension for a name, which no letter or digit follows |
| TokenScan.ScanIsEdit | tools/archive_artifacts_wave.py:306-316 | The left-to-right scan with its look-behind finds exactly one token per run of path characters, and splicing at its spans is editing run by run |
| TokenEdit.TokensOfEdit | tools/archive_artifacts_wave.py:298-329 | Tokenising a text again after replacing tokens finds the untouched tokens and the replacements, in order, and no others |
| TokenEdit.EditWeaves | tools/archive_artifacts_wave.py:303-316 | An edit changes tokens in their place and copies every piece of text between them |
| PosixPaths.RelPathInverse | tools/archive_artifacts_wave.py:283-295 | `normpath(join(d, relpath(n, d))) == n` for all normalised directories and targets inside the tree, without a leading `..`, whatever the working directory |
| PosixPaths.NormPathMeaning | tools/archive_artifacts_wave.py:259-280 | `normpath` of any path names the place where walking along its components ends: from the start, or from a root without a parent; exactly two leading slashes are kept |
| PosixPaths.DepthsDiffer | tools/archive_artifacts_wave.py:259-295 | One relative path read from two directories whose depths differ by one never arrives at the same place: the normalised paths have different numbers of components |
| LinkRewrite.RewriteText | tools/archive_artifacts_wave.py:298-316 | The loop over `parts` and `last` computes the edit of the whole text, and its count is the number of tokens that pointed at a moved file |
| LinkRewrite.BrokenRefs | tools/archive_artifacts_wave.py:319-329 | The messages are, in order, the fixed prefix followed by each token that can be read, relative to the file or from the root, as a moved path |
| LinkRewrite.MatchMeaning | tools/archive_artifacts_wave.py:259-280 | The resolver finds a path if and only if the token, relative to the directory or, unless it begins with dots, from the root, can be read as it; the reading from the root comes first |
| LinkTheorems.RefResolves | tools/archive_artifacts_wave.py:259-295 | A replacement resolves from the file's new directory, in the style it was written, to where the target went; the resolver finds it there; it points at nothing that moved away; and it cannot merge with the text after it |
| LinkTheorems.RescanExact | tools/archive_artifacts_wave.py:298-329 | Re-scanning a rewritten text finds exactly the old tokens that point at a moved path from the new directory but did not from the old one |
| LinkTheorems.UnmovedFileIsClean | tools/archive_artifacts_wave.py:298-329 | For a file that stays, no token of the output can be read, relative to the file or from the root, as a moved path; the re-scan is empty and a second rewrite changes nothing |
| LinkTheorems.FullPathRewritten | tools/archive_artifacts_wave.py:298-316 | The full path of a moved file, written in a file of any directory, is replaced by the full new path |
| LinkTheorems.LonePathRewritten | tools/archive_artifacts_wave.py:298-316 | A text that is nothing but that path is rewritten to the new path |
| LinkTheorems.CleanIsFixed | tools/archive_artifacts_wave.py:298-316 | A text without stale links is a fixed point of the rewrite |
| LinkTheorems.CleanExactly | tools/archive_artifacts_wave.py:319-369 | For any file, moved or not, the re-scan is empty if and only if no token that could not be read as a moved path from the old directory can be from the new one |
| LinkTheorems.OnlyLinksChange | tools/archive_artifacts_wave.py:298-316 | The output is the original text with the matched tokens replaced and everything else, other tokens included, copied |
| ArchiveWave.CollectMoves | tools/archive_artifacts_wave.py:345-357 | The three tables built together agree: the moves of the closed candidates in order, the map from old to new path, and the directory each moving file ends up in |
| ArchiveWave.SimulateRewrites | tools/archive_artifacts_wave.py:361-369 | The broken list holds, file by file, a message for each stale link the rewritten file would have where it ends up, so it is empty if and only if there is none; the counts are the links rewritten per file |
| ArchiveWave.BuildPlan | tools/archive_artifacts_wave.py:337-370 | The same for the whole plan, the early return for an empty wave included |
| ArchiveWave.ParentDirMeaning | tools/archive_artifacts_wave.py:253-256 | The directory of a file is what comes before the last slash of its path |
| ArchiveWave.Repo.RewriteFiles | tools/archive_artifacts_wave.py:382-388 | However far it comes, exactly the scanned files before that point are rewritten, also where the tool skips the write; cut short inside a write, that file holds a prefix of its new text; if nothing strikes it, it comes to the end |
| ArchiveWave.Repo.MoveFiles | tools/archive_artifacts_wave.py:389-403 | The moves before the stop are done. If nothing strikes it, the loop finishes with `os.replace`, and with `git mv` if and only if all destinations are free and distinct; otherwise it is refused at a taken one |
| ArchiveWave.Repo.ApplyPlan | tools/archive_artifacts_wave.py:378-403 | Wherever it stops, the tree is the one `Reached` describes: no move before the last rewrite, and then a prefix of the moves; it is cut short only if something strikes it |
| WaveTheorems.MovesAreAWave | tools/archive_artifacts_wave.py:145-163 | From a directory listing no file moves twice, no destination is itself a source, and every move keeps its basename |
| FileMoves.LandedAt | tools/archive_artifacts_wave.py:389-403 | What is found at a destination is one of the files moved there |
| FileMoves.Untouched | tools/archive_artifacts_wave.py:389-403 | A path nothing moves to holds what it held, or nothing if its file moved |
| WaveTheorems.CleanPlanCleanTree | tools/archive_artifacts_wave.py:337-403 | If the plan is clean and the run finishes, no token of a scanned file at its final path can be read, relative to it or from the root, as a path that moved away, whatever was overwritten |
| WaveTheorems.BrokenExactly | tools/archive_artifacts_wave.py:361-370 | A plan is broken if and only if some file that moves has a token that points at a moved path from its new directory and did not from its old one |
| FileMoves.NoFileLostExactly | tools/archive_artifacts_wave.py:389-403 | With overwriting moves, the number of files is kept if and only if no destination was taken and no two files share one |
| FileMoves.EveryFileSurvives | tools/archive_artifacts_wave.py:389-403 | With free and distinct destinations each moved file is at its new path with its text and every other file is where it was |
| FileMoves.NextUnopposed | tools/archive_artifacts_wave.py:391-401 | A move meets a free destination, in the tree it finds, if and only if its destination was free at the start and no earlier move went there |
| WaveTheorems.NoneLost | tools/archive_artifacts_wave.py:378-401 | A run that met no taken destination, as every run with `git mv`, has lost no file, wherever it stopped |
| WaveTheorems.CollisionsAreSharedBasenames | tools/archive_artifacts_wave.py:249-250 | Two files of a wave collide if and only if they have the same basename |
| WaveTheorems.RunWave | tools/archive_artifacts_wave.py:434-472 | With `--apply`, in both modes: the plan is refused and the tree untouched exactly when it is broken. If nothing strikes the run, it exits with 0 if and only if the plan is clean and, with `git mv`, no destination is taken or shared; a refused run has rewritten every text and moved the files before the collision. A finished run leaves no token that reads as a moved path; with `git mv` no run loses a file |
| WaveResume.RewriteAgain | tools/archive_artifacts_wave.py:298-316 | Rewriting the text of a moving file again, for the same wave or for any part of it, changes nothing |
| WaveResume.TreeAgain | tools/archive_artifacts_wave.py:382-388 | Rewriting a tree of which any first part was already rewritten gives the rewritten tree |
| WaveResume.RunAgain | tools/archive_artifacts_wave.py:337-403 | After a clean run that stopped anywhere but inside a write, a second run with the moves not yet done has a clean plan and ends in the tree the first would have reached |
| Census.FrontKept | tools/archive_artifacts_wave.py:70-70 | The first `issue:` line of a text is the same after its links are rewritten |
| IssuePatterns.BaseIssueExactly | tools/archive_artifacts_wave.py:69-69 | A name gives an issue if and only if it is a number, a hyphen and anything else, and does not begin with a date `YYYY-MM-DD-` |
| IssuePatterns.FrontIssueExactly | tools/archive_artifacts_wave.py:70-70 | A text gives the number of its first line of the form `issue:`, white space, the number with or without quotes, and nothing more; and none without such a line |
| IssuePatterns.IssueExactly | tools/archive_artifacts_wave.py:126-142 | The issue is the one in the text, and only without one there the one in the name |
| WaveRerun.IssueSurvives | tools/archive_artifacts_wave.py:126-142 | `_extract_issue` gives a rewritten file the issue it had, moving or not |
| WaveRerun.IterCandidates | tools/archive_artifacts_wave.py:145-163 | The listing holds exactly the documents of the swept categories, by category and name, with their issues; its loop runs over each directory in order and skips files of another suffix |
| WaveRerun.SuffixIs | tools/archive_artifacts_wave.py:145-163 | The `pathlib` suffix is one of the two exactly for names that end in it and have something before it |
| WaveRerun.MovesAgain | tools/archive_artifacts_wave.py:337-357 | Listing and planning the tree that is left yields the moves that are left, in order |
| WaveRerun.RunFromLeft | tools/archive_artifacts_wave.py:337-403 | A second run, listing, scanning and planning from the start after a clean run stopped anywhere but inside a write, has a clean plan of exactly the moves not yet done and ends in the tree the first would have reached |
| WaveRerun.TokensSplit | tools/archive_artifacts_wave.py:298-329 | Cut outside a run of path characters, a text has the tokens of its two parts |
| WaveRerun.TornFile | tools/archive_artifacts_wave.py:298-388 | A cleanly cut prefix of a rewritten text is left alone by another rewrite and has no stale link if the whole has none |
| WaveRerun.RunFromTorn | tools/archive_artifacts_wave.py:337-388 | After a stop inside a write, a second run makes the same moves if and only if the torn text gives the file's issue as closed as before; then every other text is as after a full run, and the torn one is its torn text rewritten once more, which is itself if the cut is clean |
| WaveLinks.UnmovedTargetsTurn | tools/archive_artifacts_wave.py:298-370 | In a file that moves, every token that pointed at no moved file is kept, and read relative to the file it no longer points where it did |
| WaveLinks.CleanPlanDeadLink | tools/archive_artifacts_wave.py:337-370 | A wave with a clean plan and free destinations after which a link that pointed at a file points at nothing |
| WaveLinks.BrokenPlan | tools/archive_artifacts_wave.py:361-370 | A wave whose plan is broken by a token that pointed at no moved file |
| Nats.NatsMatches | tools/code_inventory.py:156-186 | The two-index loop decides the token-wise meaning of `*` and a final `>`, and rejects an interior `>` |
| Nats.MatchesAnyMeaning | tools/code_inventory.py:189-196 | Looking only at patterns with a wildcard character loses no match |
| Nats.SubjectCovered | scripts/_effective.py:64-88 | True if and only if some grant covers the subject by the string test |
| Nats.CoveredImpliesMatched | scripts/_effective.py:64-88 | Without an interior `>` token, covered implies matched |
| Nats.CoveredIsMatched | scripts/_effective.py:64-88 | On `>`, literals, and literal tokens followed by `.>` or `.*`, the string test and the matcher agree on every subject string |
| Nats.CoverageAgrees | scripts/_effective.py:64-88 | The same for whole grant lists against `_subject_matches_any` |
| Nats.AgreeExactly | scripts/_effective.py:64-88 | Exactly the grants on which the string test agrees with equal-or-matched for every subject: the documented shapes, and an interior `>` without a final `.>` or `.*` |
| Nats.InnerStarMatchedNotCovered | scripts/_effective.py:84-87 | A grant with an inner `*` is matched but not covered |
| Nats.InteriorGtCoveredNotMatched | scripts/_effective.py:80-83 | A grant with an interior `>` is covered but matches nothing |
| AclMatrix.Expand | scripts/_effective.py:42-47 | Own grants followed by those of the groups in list order, both directions |
| AclMatrix.ExpandAll | scripts/_effective.py:39-49 | Both dictionaries hold exactly the active identities with their deduplicated lists |
| AclMatrix.EffectiveGrants | scripts/_effective.py:16-61 | After the flow loop every active identity's list is the deduplicated list of own, group and inbox grants |
| AclMatrix.AllowIsEffective | scripts/_effective.py:35-61 | An identity has an entry if and only if it is active, and the entry is its effective list |
| AclMatrix.EffectiveMeaning | scripts/_effective.py:35-61 | The effective list matches a subject if and only if some own or group grant of the matrix does, or the subject lies in the inbox of a requester whose flow the identity takes part in on that side |
| AclMatrix.InboxMeaning | scripts/_effective.py:52-59 | The inbox grant matches a subject if and only if its first tokens are `_inbox` and those of the requester, and more follow |
| AclMatrix.PlainInbox | scripts/_effective.py:52-59 | For an ordinary name: at least three tokens, of which the first is `_inbox` and the second the name itself |
| AclMatrix.DedupStable | scripts/_effective.py:48-59 | Deduplicated lists stay as they are when deduplicated again with grants they already hold |
| AclMatrix.BuildEffective | scripts/render_acl_parity.py:31-51 | The loop builds the flattened matrix: the version and the flows are kept, no groups remain, and every entry is active and without groups |
| AclMatrix.FlattenValid | scripts/render_acl_parity.py:31-51 | A flattened matrix is a valid matrix whose entries are the active identities |
| AclMatrix.FlattenEffective | scripts/render_acl_parity.py:31-51 | Flattening keeps each identity's effective lists, order included |
| AclMatrix.FlattenSameGrants | scripts/render_acl_parity.py:31-51 | `effective_grants` of the flattened matrix equals `effective_grants` of the original |
| AclMatrix.FlattenIdempotent | scripts/render_acl_parity.py:31-51 | Flattening twice is flattening once |
| AuthConf.RenderAuthConf | scripts/_renderer.py:66-87 | The lines appended are the file of the active identities, in order, with their keys and effective lists |
| AuthConf.SplitUserBlocks | scripts/_renderer.py:108-122 | The loop over `depth` and `start` returns the balanced top-level blocks |
| AuthConfBlocks.ScanBody | scripts/_renderer.py:44-63 | The brace scanner splits a rendered users list back into exactly the emitted blocks |
| AuthConfLists.ListReadsBack | scripts/_renderer.py:90-105 | Quoting, joining, splitting and stripping a grant list gives the list back |
| AuthConfLists.SpacedItems | scripts/_renderer.py:90-105 | White space around a quoted item of a list does not matter, and an item of nothing else is dropped |
| AuthConfRoundTrip.ReadBlock | scripts/_renderer.py:125-137 | Parsing one emitted block gives its nkey, name, grant sets and `allow_responses` |
| AuthConfRoundTrip.ReadDenials | scripts/_renderer.py:33-41 | Either deny list of a rendered block is `(">",)` if the identity has no grant that way, and empty otherwise |
| AuthConfTheorems.UsersBlock | scripts/_renderer.py:140-145 | The users capture of a rendered file is exactly the text of the user blocks |
| AuthConfTheorems.UsersRoundTrip | scripts/_renderer.py:66-150 | Parsing a rendered file gives back exactly the users, in order, when names, keys and grants are free of structural characters |
| AuthConfTheorems.DefaultsReadBack | scripts/_renderer.py:25-148 | The publish denial is read back as `(">",)` and the subscribe denial as `()` |
| AuthConfTheorems.DefaultsDenyAll | scripts/_renderer.py:66-76 | The rendered default block denies every subject in both directions |
| AuthConfTheorems.EndToEnd | scripts/_renderer.py:33-87 | For every active identity and subject, the server permits the subject, by the allow and deny lists read from the identity's rendered block, if and only if an own or group grant of the matrix matches it or it lies in a flow's inbox; the block has the identity's key and `allow_responses` |
| AuthConfTheorems.FlattenRendersTheSame | scripts/render_acl_parity.py:31-51 | The flattened matrix renders to the identical `auth.conf` |
| SeedFiles.PubkeyOfText | scripts/_modes.py:616-621 | The key computed from the generated seed is the key of the file that was written |
| SeedFiles.SeedInside | scripts/_modes.py:616-621 | White space around a seed does not matter to its key |
| SeedFiles.ProvisionedFiles | scripts/_modes.py:624-640 | A provisioned directory has `auth.conf`, the rendering of its seeds, and `<name>.seed` for every active identity |
| SeedFiles.WriteConf | scripts/_modes.py:624-640 | Writing the rendering of the gathered keys makes `auth.conf` the rendering of the seeds on disk |
| Keystore.Store.AtomicWrite | scripts/_modes.py:45-59 | All or nothing: the file is replaced, or the directory gains at most a temporary file; it ends as what strikes it says |
| Keystore.Store.ProvisionSeeds | scripts/_modes.py:614-622 | When the loop finishes, the seeds on disk are the generated ones, each key belongs to its seed, one rotation is pending per identity, and other files are as they were. If nothing strikes it, it finishes if and only if every seed gives a key |
| Keystore.Store.ProvisionFiles | scripts/_modes.py:556-640 | If it finishes, every generated seed is in place and gives a valid key, `auth.conf` is their rendering, nothing else has changed, and one entry per identity is pending. How it ends is decided by what strikes it and by the keys |
| Keystore.Store.Flush | scripts/_modes.py:649-650 | One append per pending entry, each arriving or not, until one raises; only what strikes it can stop it |
| Keystore.Store.FullProvision | scripts/_modes.py:556-657 | Before the flush point the log is as it was; any log line at all implies that every seed and `auth.conf` are in place; it finishes if nothing strikes it and every seed gives a key |
| Keystore.Store.BackupSeeds | scripts/_modes.py:408-415 | The directory is gone and complete in the backup, unless something strikes or the name is taken; cut short, also right after the deletion, the old contents are still in one of the two places and what is left of the directory is a part of them |
| Keystore.Store.RestoreOnFailure | scripts/_modes.py:429-452 | Whatever was there before, a completed restore leaves exactly the backup; it completes unless something strikes it |
| Keystore.Store.Regenerate | scripts/_modes.py:455-488 | Every run, cut short anywhere, is one of the runs `RegenerateRun` allows. Its outcome is decided by what strikes the backup, the provisioning and the restore: killed if and only if the process was killed while provisioning, otherwise restored after every failure; an unfinished run from an existing directory that got past the backup, is not killed and is not struck while restoring ends with the directory as it was |
| Keystore.KeptAll | src/factory/operator_audit.py:18-42 | When no append was dropped the log gained exactly one entry per identity |
| ProvisionTheorems.RegenerateGuarantees | scripts/_modes.py:455-488 | A rolled-back run leaves the directory exactly as it was; a run that does not reach the flush leaves the log unchanged; a finished run has provisioned every active identity with the generated seed and nothing else; at every exit the old contents are in place or in the backup, and older backups are untouched |
| ProvisionTheorems.RollbackKeepsLogExactly | scripts/_modes.py:455-488 | Every rolled-back run from a given start leaves the log as it was if and only if no identity is active, the backup's name is taken, or some generated seed gives no key |
| ProvisionTheorems.LogOutlivesRollback | scripts/_modes.py:455-488 | From every other start, a run that is rolled back while the log has grown by the first identity's entry, every seed giving a valid key |
| AddIdentity.Validate | scripts/_modes.py:211-244 | Admits exactly a declared active NAME when every other active identity has its seed |
| AddIdentity.OtherKeys | scripts/_modes.py:277-284 | The keys of all other active identities, from their seeds, reading only; if nothing strikes it, it finishes if and only if all of them are valid |
| AddIdentity.OwnKey | scripts/_modes.py:286-293 | A new seed is written only when there was none; the key is that of the seed on disk; if nothing strikes it, it finishes if and only if that key is valid |
| AddIdentity.Write | scripts/_modes.py:266-295 | It finishes, if nothing strikes it, if and only if all keys are valid, and then `auth.conf` is the rendering of the seeds on disk; otherwise what it leaves is one of the transitions of `Run` |
| AddIdentity.AddIdentity | scripts/_modes.py:298-337 | Every run, cut short anywhere, is one of the transitions of `Run`: nothing is written before the other keys are valid, nor `auth.conf` before all are. If nothing strikes it, it refuses, reports or fails exactly as the state and the keys say; a struck run never reports. It logs at most one entry, only if it generated the seed and only after `auth.conf` is written |
| AddIdentity.KeysReady | scripts/_modes.py:275-295 | The keys gathered are those of the seeds on disk when `auth.conf` is rendered |
| ProvisionTheorems.KeysMatchSeeds | scripts/_modes.py:614-640 | In a provisioned directory the parsed `auth.conf` names every active identity with the public key of its seed, and nobody else |
| ProvisionTheorems.ProvisionedIsNoop | scripts/_modes.py:247-263 | A provisioned directory is detected as `noop` for every active identity |
| ProvisionTheorems.RunKeeps | scripts/_modes.py:266-295 | No run touches another identity's seed or replaces NAME's |
| ProvisionTheorems.SeedsSurvive | scripts/_modes.py:298-337 | The same over any sequence of runs |
| ProvisionTheorems.RunRecovers | scripts/_modes.py:247-295 | Every run keeps the directory recoverable, and one that reports leaves it provisioned |
| ProvisionTheorems.CrashThenRerun | scripts/_modes.py:298-337 | After any number of failures at any steps, the first run that reports leaves `auth.conf` equal to the rendering of the seeds on disk and the next run a `noop` |
| ProvisionTheorems.StaleBlock | scripts/_modes.py:247-295 | With a block but no seed, and the other keys valid, a kill after the seed write makes the next run report `noop` with the old key in `auth.conf` |
| ProvisionTheorems.RecoversExactly | scripts/_modes.py:247-337 | Every run sequence that reports leaves the directory provisioned if and only if at the start NAME had no block, or the directory was provisioned, or NAME had no seed and another active identity's seed gives no valid key |
| ProvisionTheorems.Stuck | scripts/_modes.py:277-284 | In that last case no run writes anything or reports |
| ProvisionTheorems.SeedLoggedExactly | scripts/_modes.py:298-337 | Over any sequence of runs, a generated seed has one log entry or none, and only the run that generated it can have logged it |
| ProvisionTheorems.LoggedForSureExactly | scripts/_modes.py:298-337 | Every run sequence that generates NAME's seed logs it if and only if none can: the seed is there at the start, or another active identity's seed gives no valid key |
| ProvisionTheorems.UnloggedSeed | scripts/_modes.py:298-337 | From every directory that admits NAME, has neither its seed nor its block and gives valid keys, two runs that end provisioned and reported with the seed never logged |
| Soul.ParseSoul | src/factory/core/persona.py:34-60 | The line loop with `current`, `buf` and `sections` computes the sections, or the error on an unknown header (what these are, see the next rows) |
| SoulTheorems.ParseRefuses | src/factory/core/persona.py:34-60 | A document that is not blank is refused if and only if some line of it is a header of an unknown section |
| SoulTheorems.HeaderMeaning | src/factory/core/persona.py:31-31 | A line is a header of a name if and only if, trimmed, it is two hashes, white space and that word |
| SoulTheorems.SectionNames | src/factory/core/persona.py:34-60 | The sections are exactly those some line is the header of |
| SoulTheorems.SectionText | src/factory/core/persona.py:34-60 | A section is the trimmed text between its last header and the next header of any section, or the end |
| Soul.MergeSoul | src/factory/core/persona.py:63-70 | The canonical text of the non-empty sections, in the order Identity, Personality, Values, Expertise, Guidelines |
| Soul.ComposeSoul | src/factory/core/persona.py:73-89 | Refused if and only if the UTF-8 form has more than 65536 bytes; otherwise the prompt is the canonical document's, followed by the voice note |
| Utf8.CharReadsBack | src/factory/core/persona.py:83-84 | The bytes of a character (RFC 3629, section 3) give it back, and are as many as the first of them announces |
| Utf8.LengthCounts | src/factory/core/persona.py:83-84 | The length is the number of bytes of the encoding |
| SoulTheorems.ParseReadable | src/factory/core/persona.py:34-60 | Whatever parses has known section names and bodies without a header line or foreign line break |
| SoulTheorems.MergeRoundTrip | src/factory/core/persona.py:34-70 | For any sections, parsing the merge gives the non-empty trimmed sections if and only if every trimmed body is readable |
| SoulTheorems.Canonical | src/factory/core/persona.py:34-94 | For every document that parses, the canonical text has the same non-empty sections, is a fixed point, and composes to the same prompt or the same refusal |
| TextLines.SplitLinesPlain | src/factory/core/persona.py:47-47 | `splitlines` and `split("\n")` agree on texts broken by newlines only |
| TextLines.SplitLinesMeaning | src/factory/core/persona.py:47-47 | For any text: a break character ends a line, a carriage return takes a newline after it along, and a last line without a break counts if it is not empty |
| Text.SpacesListed | src/factory/core/persona.py:31-31 | White space is the twenty-nine characters for which `str.isspace` holds |
| CodesSync.RenderMd | packages/roxabi-contracts/scripts/check_codes_sync.py:210-234 | The two loops produce the grouped table |
| CodesSync.ParseMd | packages/roxabi-contracts/scripts/check_codes_sync.py:79-119 | The loop over `current_domain` lists the rows with the domain of their heading |
| CodesSyncPatterns.HeadingExactly | packages/roxabi-contracts/scripts/check_codes_sync.py:72-76 | A line is the heading of a domain if and only if it is two hashes, white space and a word that is the domain, with or without the glob |
| CodesSyncPatterns.RowExactly | packages/roxabi-contracts/scripts/check_codes_sync.py:70-70 | A line is a row if and only if it is a code, a flag and a description between pipes, with white space around them |
| CodesSync.IndexRows | packages/roxabi-contracts/scripts/check_codes_sync.py:134-141 | The index keeps the last row of each code; the duplicates are the codes of the rows whose code an earlier row has, in row order |
| CodesSync.RepeatsAreTwice | packages/roxabi-contracts/scripts/check_codes_sync.py:134-145 | Those are the codes listed twice or more |
| CodesSync.Compare | packages/roxabi-contracts/scripts/check_codes_sync.py:127-191 | A message is reported if and only if the table and the rows really differ that way: duplicates in row order, then the others by kind, code and field |
| CodesSync.OneReport | packages/roxabi-contracts/scripts/check_codes_sync.py:127-191 | Contents and order leave exactly one list of messages |
| CodesSyncTheorems.NothingReportedIsInSync | packages/roxabi-contracts/scripts/check_codes_sync.py:127-191 | For any rows, nothing is reported if and only if the rows list each code once with equal domain, description and, where set, retryable flag |
| CodesSyncTheorems.GroupsList | packages/roxabi-contracts/scripts/check_codes_sync.py:216-219 | Grouping by domain keeps every code, once, under its own domain |
| CodesSyncTheorems.GroupsInOrder | packages/roxabi-contracts/scripts/check_codes_sync.py:216-219 | One group for each domain, in the order the domains are first seen, holding all its codes in registry order |
| CodesSyncTheorems.RenderedRows | packages/roxabi-contracts/scripts/check_codes_sync.py:79-234 | Parsing a rendered table gives one row per code, domain by domain |
| CodesSyncTheorems.RenderedIsInSync | packages/roxabi-contracts/scripts/check_codes_sync.py:127-234 | Comparing a well-formed registry with its own rendering reports nothing |
| CodesSyncTheorems.OnlyWellFormedInSync | packages/roxabi-contracts/scripts/check_codes_sync.py:79-191 | No document whatever is in sync with a registry that has a code its row cannot hold |
| CodesSyncTheorems.RenderedInSyncExactly | packages/roxabi-contracts/scripts/check_codes_sync.py:79-234 | A registry is in sync with its own rendering if and only if every code is well-formed |
| CodesSyncTheorems.CheckMode | packages/roxabi-contracts/scripts/check_codes_sync.py:242-261 | Exit 0 exactly for a document in sync, 2 for a missing one, 1 otherwise |
| Inventory.ResolveSymbolAtSplit | tools/code_inventory.py:651-681 | The loop over split points computes the recursive scan |
| Inventory.SplitVerdict | tools/code_inventory.py:651-681 | The scan's verdict depends on the last split only |
| Inventory.DottedLive | tools/code_inventory.py:683-729 | A dotted token is live if and only if it is a module, a name scoped to its prefix module, or a matching subject |
| Inventory.DottedDeadKind | tools/code_inventory.py:683-763 | Which kind a dead dotted token is reported as, in closed form |
| Inventory.NamespaceMeaning | tools/code_inventory.py:731-763 | Which tokens NATS or a retired project owns, letter by letter, in any case, and which begin with `factory.` |
| Inventory.DottedLiveKind | tools/code_inventory.py:683-729 | A live dotted token is a module, else a symbol if a prefix scopes it, else a subject |
| Inventory.LiveExactly | tools/code_inventory.py:564-601 | For every token, exactly what makes it live, down to its characters: template characters, path components, packages |
| Inventory.TemplateMeaning | tools/code_inventory.py:268-313 | Which tokens are patterns rather than names, character by character, in a path and elsewhere |
| Inventory.KindExactly | tools/code_inventory.py:564-791 | What every token that is not dotted is reported as, live or dead: a dead bare word is a symbol only if it is written as a class name that no external package provides |
| Inventory.GrowthKeepsLive | tools/code_inventory.py:564-763 | More modules, symbols or subjects never turn a live token dead |
| RateLimit.NoWindowOverflows | src/factory/dashboard/security.py:48-66 | Over any run no interval of `window` seconds holds more than `limit` allowed calls |
| RateLimit.RefusedExactly | src/factory/dashboard/security.py:61-66 | A call is refused if and only if `limit` allowed calls already lie in `[now - window, now]` |
| RateLimit.BucketCounts | src/factory/dashboard/security.py:59-63 | The popped deque's length is the count over the full history |
| RateLimit.Limiter.CheckRateLimit | src/factory/dashboard/security.py:48-66 | The deque keeps refining the history, the decision is the specified one, and other keys are left alone |
| StreamTokens.ApplyAgrees | src/factory/dashboard/stream_tokens.py:26-63 | Each event changes the token dictionary so that it holds exactly the live pairs again |
| StreamTokens.StreamTokenRegistry.Mint | src/factory/dashboard/stream_tokens.py:26-31 | Keeps both dictionaries mutual inverses and records the token |
| StreamTokens.StreamTokenRegistry.Verify | src/factory/dashboard/stream_tokens.py:33-43 | True if and only if the token was minted for the stream and neither has been revoked since |
| StreamTokens.StreamTokenRegistry.Revoke | src/factory/dashboard/stream_tokens.py:45-49 | Revokes exactly the session's tokens; no empty or dangling bucket remains |
| StreamTokens.StreamTokenRegistry.RevokeToken | src/factory/dashboard/stream_tokens.py:51-63 | Revokes exactly that token; its peers stay |
| Migration.MigratedHoldsRows | src/factory/bootstrap/bootstrap_store_migrations.py:154-189 | A migrated database carries the sentinel and holds exactly the source's rows, despite `INSERT OR IGNORE` |
| Migration.RowsConserved | src/factory/bootstrap/bootstrap_store_migrations.py:179-199 | The number of rows reported is the number that arrived |
| Migration.IdentMeaning | src/factory/bootstrap/bootstrap_store_migrations.py:76-76 | A name passes the check if and only if it is a letter or underscore followed by those and digits, and perhaps a newline |
| Migration.Vault.CopyTable | src/factory/bootstrap/bootstrap_store_migrations.py:154-180 | One table copied, skipped when missing, or refused for a bad name or one that was copied already; it fails otherwise only if something strikes it |
| Migration.Vault.FillTemp | src/factory/bootstrap/bootstrap_store_migrations.py:148-196 | Only the temporary database changes, and it is complete or dropped |
| Migration.Vault.AtomicTableCopy | src/factory/bootstrap/bootstrap_store_migrations.py:125-199 | The destination is the whole migrated database or untouched; at most temporary files are left |
| Migration.Vault.Ensure | src/factory/bootstrap/bootstrap_store_migrations.py:226-247 | Every start-up, cut short anywhere, is one of the transitions of `Startup`; if nothing strikes it, it finishes if and only if there is nothing to do or all names are plain |
| MigrationTheorems.LaterRunsKeep | src/factory/bootstrap/bootstrap_store_migrations.py:238-247 | Once the sentinel is there, no later start-up changes any file |
| MigrationTheorems.SentinelMeansMigrated | src/factory/bootstrap/bootstrap_store_migrations.py:107-247 | Over any run, a sentinel came from one finished copy that held every row of the listed tables, and no start-up since has replaced it |
| MigrationTheorems.UninterruptedRun | src/factory/bootstrap/bootstrap_store_migrations.py:125-247 | An uninterrupted start-up with the source present ends with the sentinel if and only if it was there or all names are plain |
| MigrationTheorems.DestinationKeptExactly | src/factory/bootstrap/bootstrap_store_migrations.py:107-122 | A finished start-up keeps the destination if and only if its sentinel was there and readable, or the copy is the same |
| MigrationTheorems.OpenStores | src/factory/bootstrap/bootstrap_store_migrations.py:226-247 | Both guards in order, the second only after the first finished; each that nothing strikes finishes if and only if there is nothing to do or all names are plain |
| MigrationTheorems.StoresCarried | src/factory/bootstrap/bootstrap_store_migrations.py:125-247 | After a finished copy the destination holds the rows of the five tables, or of `discord_threads`, as `auth.db` has them, the sentinel and nothing else |
| PytestGates.CheckAllowlist | tools/check_pytest_dir_markers.py:96-113 | One error per misplaced path, in order, with its marker and the reason: under a denied prefix, or else under no allowed one |
| PytestGates.CheckMarker | tools/check_pytest_dir_markers.py:126-131 | A marker has no error if and only if every test that carries it lies where it allows |
| PytestGates.DirMarkerGate | tools/check_pytest_dir_markers.py:116-137 | Exit 2 for a failed collection, 0 if and only if every marked test lies in the directories its markers allow, which are named one by one, 1 otherwise |
| PytestGates.CheckCover | tools/check_pytest_partition.py:108-139 | True if and only if the parts' union is the total |
| PytestGates.ValidateGroup | tools/check_pytest_partition.py:142-176 | True if and only if the parts are pairwise disjoint and cover the total; the counts are the sizes, and then those of the parts sum to the total's |
| PytestGates.CountsAddUp | tools/check_pytest_partition.py:167-176 | Disjoint parts sum to the size of their union |
| PytestGates.PartitionsCollect | tools/pytest_partitions.py:16-61 | Which tests each of the seven invocations collects, by directory and marker |
| PytestGates.BelowMeaning | tools/pytest_partitions.py:16-61 | A path lies below a directory, written with or without a closing slash, if and only if it continues it after a slash |
| PytestGates.InOnePartition | tools/pytest_partitions.py:16-61 | Exactly which tests under `tests/` lie in one of unit, infra and integration and no other |
| PytestGates.LayoutGivesOnePartition | tools/pytest_partitions.py:83-110 | Under the layout gate every test outside `tests/e2e` lies in exactly one partition |
| PytestGates.CheckGroup | tools/check_pytest_partition.py:142-176 | No result if a partition of the group collects nothing or its collection fails; otherwise whether the partitions are disjoint and cover the total |
| PytestGates.PartitionGate | tools/check_pytest_partition.py:179-219 | Exit 2 if a collection fails or selects nothing, 0 if the workflow file is in step and both groups split their pools, 1 otherwise |
| PytestGates.LayoutSplits | tools/pytest_partitions.py:119-156 | If the layout gate passes, the partitions of both pools are disjoint and cover them |
| PytestGates.LayoutImpliesPartitions | tools/check_pytest_partition.py:142-219 | Then the partition gate passes if and only if no partition is empty, no collection fails otherwise and the workflow file is in step; it exits with 1 only for the workflow file |
| PytestGates.WithoutMarker | tools/check_pytest_partition.py:55-89 | A suite without an integration test, or without a subprocess test of roxabi-nats, has an empty partition |

## Left out

- Real file systems, git, SQLite and subprocesses: maps, and steps that may fail. That `git mv` refuses an untracked file is one of the failures that cut a run short.
- Archive wave: the directory walk is the parameter `scan`, and which paths it keeps a predicate on paths; the closed issues, the digits outside ASCII and Python's `int` are parameters, the working directory a list of names; decoding and newline translation of files are not modelled. Errors while planning change nothing and are left out, as is the failed query of issues.
- PosixPaths.RelPathInverse: paths with a leading `..` are left out; the wave names every file from the root of the repository, and `_repo_dir` refuses one outside it.
- Regular expressions: each pattern is a function or a chain of literals and greedy runs; the word class `\w` of the `auth.conf` lists is the ASCII one.
- JSON loading and the checks of the matrix loader, except that names are unique and group references resolve.
- Key generation is an arbitrary function from names to strings and key derivation an uninterpreted function whose result is checked for its length; that fresh seeds give valid or different keys is assumed only where a result names such seeds. Identity names are single path components.
- The `/etc/nats` opt-in, ownership and modes, prompts, the external manifest, `--regen-authconf`, `--emit-merged-authconf`, `--show`.
- The rotation log is a list of entries; dates, the operator, the host and the file's heading line are not modelled.
- Soul documents: the legacy JSON form; the Unicode class `\w` is a parameter.
- CodesSync: of a message, the kind, code and field; the values it prints are not modelled.
- Inventory: scanning the code base; modules, symbols, subjects and files are given, symbol names have no dot, and the Unicode classes are parameters.
- RateLimit: times are real numbers; keys used with more than one limit or window.
- StreamTokens.StreamTokenRegistry.Mint: takes the generated token as a parameter and asks that it be new and not empty. Stream keys outside ASCII, on which the comparison raises, are not modelled.
- Migration.Vault.AtomicTableCopy: does not copy indices, which hold no rows and which the source skips on an error. Column types and write-ahead files. A row conflict is a shared key.
- PytestGates: running pytest and reading its output; tests are given with their path and markers, and which collections fail for a reason of their own and whether the workflow file is in step are parameters.
- Hub, pool and NATS transport, the dashboard's routes, inbound routing, blob storage and the TypeScript code.
