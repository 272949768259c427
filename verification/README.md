# modal-rust in Dafny

A verification project for the parts of modal-rust that hold state, keep a fast form in step with a simple one, or print
something that another part must read back. `dafny verify dfyconfig.toml` checks all of it.

| part | files |
|---|---|
| Runner: registry, load-once classes, serve loop, one-shot and decode-only paths | `RunnerArgs`, `Runner`, `RunnerProcess`, `RunnerLaws`, `RunnerMethods` |
| Run path: concurrent resolution of function ids, the publish set | `ObjectTags`, `RunPath`, `RunPathLaws`, `RunPathKeys`, `RemoteHandle` |
| Describe cache: the key over a source tree, the commands that use it, and local validation after them | `SourceTree`, `SourceEdits`, `KeyFraming`, `DescribeCache`, `ContentEdits`, `DescribeCli`, `DescribeCommand`, `LocalValidation` |
| Named Dict and Queue objects: pickled keys, the store, interleaved clients, the typed handle | `Pickle`, `ObjectStore`, `Servicer`, `DictHistory`, `CounterWrap`, `MockServicer`, `DictHandle` |
| Retry loop | `Retry` |
| Decorator spec printers and their readers | `Json`, `ImageSpec`, `Schedule` |

Code that changes things in place is a class or a method with loops, proved equal to a function of the old state; the
theorems are about those functions, over every input, every run or every interleaving. `Wrappers` and `Bytes` hold the
option and result types and little-endian numbers.

What must hold of the outside world is a parameter or a stated hypothesis: JSON reading, typed decoding and user code are
arbitrary functions (user code may fail, unwind, and change its class's instance while doing so); `enter` is any sequence of
outcomes; clocks, randomness and cargo are arbitrary functions; the digest is collision-free only where a lemma says so.

## What turned out different from the comments

- `sanitize_object_tag` merges names (`"a b"` and `"a_b"`, or `""` and `"handler"`). If the server answers their creates
  with different ids, which the source neither promises nor rules out, two keys with one tag take each other's id out of the
  published set while both cells stay filled. `RunPathLaws.AlwaysInvokableIff` says exactly when that can happen;
  with one id per tag it cannot (`RunPathLaws.OneIdPerTagIsEnough`).
- A closure directory outside the workspace is keyed relative to itself, not to its parent as the comment has it, so which of
  two such directories a file is in does not reach the key (`DescribeCache.OutsideDirectoriesCollide`). Such
  directories are workspace members reached through `..`. What does reach the key is `DescribeCache.KeyIsExactAnywhere`; what
  follows for the cached manifest is `DescribeCli.OutsideClosuresMislead`.
- The comment says nothing outside the closure can change what the runner emits. The closure leaves out build dependencies
  and path dependencies that are no members, and an edit of one leaves the key
  (`DescribeCli.LeftOutDependencyMisleads`). `DescribeCli.CoherentIff` says exactly when the cache tells the truth, inside the
  workspace and out.
- Skipping `target` and `.git` is said never to affect the describe output. The walk skips any folder of that name, a Rust
  module's too, so an edit of `src/target/mod.rs` leaves the key (`ContentEdits.TargetModuleIsUnseen`);
  `ContentEdits.EditChangesKeyIff` says exactly which edits change it.
- `--verify-manifest` stores its local answer under the key its remote leg then reads. `DescribeCli.VerifyAsksModalIff` says
  exactly when Modal is asked at all; otherwise verification passes whatever Modal would have said.
- A cache hit returns the runner pinned by the last local build, which need not be of the described source
  (`DescribeCli.UndoneEditKeepsRunner`; `DescribeCli.RunnerMatchesIff` says exactly when it is). Local validation then
  can stop a call whose input the described source decodes (`LocalValidation.WarmDescribeRejectsIff`).
- A remote describe leaves a manifest that a later local describe hits, so a crate that does not build here is described
  here once Modal described it (`DescribeCli.RemoteWarmsLocal`).
- `jitter` overflows for a delay of 2^64 - 1 nanoseconds or more. The default policy never gets there.
- Object ids come from a 64-bit counter, so the lifecycle, dict and queue results hold for runs of at most 2^64
  draws, those of all other id kinds included, and `CounterWrap` shows that each fails for one draw more.
- A `pop` whose value does not decode is an error, but has removed the value (`DictHandleSpec.PresentIsNeverAbsent`).
- The schedule macro refuses a colon in the cron expression too; only one in the timezone would be misread.

## Model

| member | source | states |
|---|---|---|
| Runner.ServeConcat | crates/modal-rust-runtime/src/lib.rs:986-1040 | serving a concatenation of lines is serving the first part, then the second from the class state it left; outputs append |
| Runner.OneAnswerPerLine | crates/modal-rust-runtime/src/lib.rs:990-1040 | exactly one envelope per non-blank line, in order, each the reply from the state the earlier lines left; no failure ends the loop |
| Runner.AckAccounts | crates/modal-rust-runtime/src/lib.rs:1057-1082 | a prime acknowledgement's primed and failed counts add up to the registered primes, one message per failure in order |
| RunnerProcess.FromInventory | crates/modal-rust-runtime/src/lib.rs:407-466 | start-up succeeds exactly when no name is submitted twice, and then the registry holds every submission, its companion and its prime, and nothing else |
| RunnerProcess.Process.Force | crates/modal-rust-macros/src/cls.rs:544-567 | the accessor returns a kept instance, keeps a success, and keeps nothing of an error or unwinding |
| RunnerProcess.Process.Handle | crates/modal-rust-runtime/src/lib.rs:560-579 | decode, resolve the instance, run the body and keep what it left of the instance; each way of ending becomes the matching error |
| RunnerProcess.Process.ServeOne | crates/modal-rust-runtime/src/lib.rs:1087-1131 | a request adds one envelope: malformed JSON before unknown entrypoint before decode error, and a non-JSON output is an encode error |
| RunnerProcess.Process.ServePrime | crates/modal-rust-runtime/src/lib.rs:1057-1082 | all hooks run in order whatever the earlier ones did, and one acknowledgement is written |
| RunnerProcess.Process.ServeLine | crates/modal-rust-runtime/src/lib.rs:1010-1037 | an explicit kind other than `request` never reaches the request path; a bad frame is answered, not fatal |
| RunnerProcess.Process.RunServe | crates/modal-rust-runtime/src/lib.rs:986-1040 | the loop computes the run of all lines before the first read error, and only such an error gives exit code 1 |
| RunnerProcess.Process.CheckInputInner | crates/modal-rust-runtime/src/lib.rs:892-925 | the decode-only path prints its one envelope, changes no class state, and exits 1 when that envelope cannot be written |
| RunnerProcess.Process.Emit | crates/modal-rust-runtime/src/lib.rs:1143-1160 | a line that cannot be written turns the exit code into 1 |
| RunnerProcess.Process.RunCliWithArgs | crates/modal-rust-runtime/src/lib.rs:684-762 | the one-shot path, a third copy of the dispatch, prints one envelope with its exit code, 1 if it cannot be written, or nothing and 1 on bad arguments or unreadable input |
| RunnerArgs.ParseArgs | crates/modal-rust-runtime/src/lib.rs:597-651 | accepts an argv exactly when it is one entrypoint flag and one input flag in either order, and returns those values even when one looks like a flag |
| RunnerArgs.RendersAtMostOne | crates/modal-rust-runtime/src/lib.rs:597-651 | the argument language is unambiguous, so parsing inverts rendering |
| RunnerLaws.ServeEqualsOneShot | crates/modal-rust-runtime/src/lib.rs:684-762 | a served request and a one-shot invocation on the same class state give the same envelope and state, and the exit code follows the envelope |
| RunnerLaws.CheckAgreesWithRun | crates/modal-rust-runtime/src/lib.rs:224-281 | a failed check is the run's own failure envelope with no body or `enter` run; a passed check means the run decodes; unchecked means known without a checker |
| RunnerLaws.CheckLineAgreesWithRunLine | crates/modal-rust-runtime/src/lib.rs:697-742 | the same for whole command lines: a failing `--check-input` line prints and exits as the line without it, and changes nothing |
| RunnerLaws.InventoryHasCompanions | crates/modal-rust-runtime/src/lib.rs:407-459 | a registry built from submissions whose checker and handler come from one function has only matching checkers |
| RunnerLaws.ValidateInputLocally | crates/modal-rust-cli/src/programmatic.rs:673-725 | rejects exactly when a runner ran and failed without just missing the entrypoint, with the envelope's message or the bare output; the arguments it renders parse |
| RunnerLaws.RejectedInputsDoNotDecode | crates/modal-rust-cli/src/programmatic.rs:673-725 | with a matching runner an input is rejected only if the run would answer that very decode error |
| RunnerLaws.EnterSucceedsAtMostOnce | crates/modal-rust-macros/src/cls.rs:544-592 | for any outcomes of `enter`, over every run of requests and primes, a class is attempted until its first success and never after, and keeps that instance |
| RunnerLaws.AnswerAhead | crates/modal-rust-macros/src/cls.rs:551-567 | a request is answered alike by a lazy and an early-primed process, which stay in simulation even when methods mutate or unwind |
| RunnerLaws.PrimingIsInvisible | crates/modal-rust-runtime/src/lib.rs:986-1131 | with fixed `enter` outcomes, erasing every prime frame leaves the request envelopes and the state of every used class unchanged |
| RunnerMethods.MethodsFold | crates/modal-rust-macros/src/cls.rs:447-459 | over any run of served lines the instance of an entered class is its methods folded over what it was, and the answer to each call is that method's ending on the instance so far: value, error with details, encode error or panic |
| RunnerMethods.MethodsFoldFromEnter | crates/modal-rust-macros/src/cls.rs:544-567 | the same from the first call on, over the value `enter` gave |
| RunnerMethods.FirstCallEnters | crates/modal-rust-macros/src/cls.rs:544-592 | the first call of a method shows the method on the entered instance and keeps what it left, or shows the refusal or panic of `enter` and keeps nothing |
| RunnerMethods.FreeFunctionShows | crates/modal-rust-runtime/src/lib.rs:560-579 | a free function is answered with its ending and touches no class |
| RunnerMethods.LineMeans | crates/modal-rust-runtime/src/lib.rs:1010-1037 | a line whose kind is absent or `request` is the one-shot run of its frame, `prime` is acknowledged, any other kind is a decode error that changes nothing |
| RunnerMethods.InputSourcesAgree | crates/modal-rust-runtime/src/lib.rs:653-672 | input from a file or standard input runs as the same bytes given inline, and an unreadable one prints nothing and exits 1 |
| RunnerMethods.AckOneMore | crates/modal-rust-runtime/src/lib.rs:1057-1082 | what one more registered prime adds to the acknowledgement, by how its `enter` ends |
| RunnerMethods.ValidatedMeans | crates/modal-rust-cli/src/programmatic.rs:673-725 | a runner's verdict is a rejection exactly when its `--check-input` line fails with one envelope whose kind is not `unknown_entrypoint`, with that message |
| ObjectTags.Sanitize | crates/modal-rust/src/remote.rs:40-56 | every tag is non-empty and tag-safe, and a tag-safe name is its own tag |
| ObjectTags.TagMeans | crates/modal-rust/src/remote.rs:40-56 | the empty name's tag is `handler`; letters, digits, `_`, `-` and `.` stay in place and every other character becomes `_` |
| ObjectTags.SharedTagIff | crates/modal-rust/src/remote.rs:40-56 | which different names share a tag, exactly |
| ObjectTags.TagsCanCollide | crates/modal-rust/src/remote.rs:40-56 | two names with one tag |
| RunPath.StepKeepsInv | crates/modal-rust/src/app.rs:411-469 | every step of every task, errors and drops included, keeps locks, permits, cells and resolved ids consistent |
| RunPath.RunKeepsInv | crates/modal-rust/src/app.rs:411-469 | hence every reachable state is consistent |
| RunPathLaws.SingleFlight | crates/modal-rust/src/app.rs:411-469 | in every interleaving no key is filled twice, and all tasks that resolved a key hold the id in its cell |
| RunPathLaws.AlwaysInvokableIff | crates/modal-rust/src/app.rs:91-95 | with a server free to choose ids, every resolved id is in the published set in every reachable state exactly when different keys have different object tags |
| RunPathLaws.SharedTagUnpublishes | crates/modal-rust/src/control_plane.rs:740-751 | for any two works sharing a tag, if the server answers their creates with different ids, a run that takes a resolved id out of the published set |
| RunPathLaws.OneIdPerTagIsEnough | crates/modal-rust/src/control_plane.rs:740-751 | if the server answers every create under a tag with the same id, every resolved id stays published even where tags are shared |
| RunPathLaws.UsualWorksAreApart | crates/modal-rust/src/app.rs:597-653 | tag-safe entrypoints other than `__describe__`, describes and deploys of one app never share a tag |
| RunPathLaws.NoDeadlock | crates/modal-rust/src/app.rs:371-392 | while a task is unfinished some task can take an ordinary step: map lock, cell permit, client lock, publish-set lock are climbed in rank |
| RunPathLaws.RunsAreBounded | crates/modal-rust/src/app.rs:432-464 | however it is scheduled, a run of n tasks takes at most 9n steps |
| RunPathLaws.AllCanFinish | crates/modal-rust/src/app.rs:411-469 | from every reachable state, without errors or drops, all tasks finish and every waiting one gets an id |
| RunPathKeys.InvokeMeans | crates/modal-rust/src/app.rs:416-431 | field by field: the key names the entrypoint, has the decorator's `cache` and `timeout_secs` where it gives them and the app's where not, and every other option as configured |
| RunPathKeys.DescribeMeans | crates/modal-rust/src/app.rs:597-621 | the describe bootstrap has its reserved tag, 4096 MB, and otherwise the app's settings |
| RunPathKeys.InvokesShareIff | crates/modal-rust/src/app.rs:401-404 | two calls, of one app or of two, ask for one cell exactly when they name one entrypoint and their settings come out alike |
| RunPathKeys.DescribeSharesIff | crates/modal-rust/src/app.rs:597-621 | an entrypoint has the describe cell exactly when it is called `__describe__` and is decorated with what the bootstrap has |
| RunPathKeys.OneCreatePerSetting | crates/modal-rust/src/app.rs:401-404 | in every run, two invokes that got an id were served by one create exactly when they named one entrypoint with settings that come out alike: a config change never reuses a stale function |
| RemoteHandles.RemoteHandle.FetchCell | crates/modal-rust/src/app.rs:432-441 | the map section inserts an empty cell or leaves the memo alone, and gives the lock back |
| RemoteHandles.RemoteHandle.EnsureFunction | crates/modal-rust/src/remote.rs:580-650 | the create sequence records and publishes the union on success and leaves the cell empty on every failure |
| RemoteHandles.RemoteHandle.Publish | crates/modal-rust/src/control_plane.rs:926-945 | publishing replaces the server's set with the whole union; a failed publish may or may not have done so |
| RemoteHandles.RemoteHandle.ResolveFunction | crates/modal-rust/src/app.rs:411-469 | a filled cell is returned with nothing changed; an empty one is created, recorded, published and filled, or left empty; each change is a step of the protocol; the poll deadline is the decorator's timeout, or else the app's, and 120 seconds |
| SourceTree.WalkExact | crates/modal-rust-cli/src/describe_cache.rs:154-190 | the walk collects each cache input reached through no pruned folder exactly once and nothing else, in any listing order |
| SourceTree.CollectExact | crates/modal-rust-cli/src/describe_cache.rs:130-152 | a file is collected as often as there are closure directories it is a source of |
| SourceTree.CollectSeen | crates/modal-rust-cli/src/describe_cache.rs:130-152 | for any closure, what is collected under a key path is what each directory has there, in closure order |
| SourceEdits.TrimKeepsWalk | crates/modal-rust-cli/src/describe_cache.rs:154-190 | dropping pruned folders, files that are no cache input and other entries changes neither what is collected nor whether the walk fails |
| SourceEdits.ReorderKeepsWalk | crates/modal-rust-cli/src/describe_cache.rs:156-158 | listing directories in another order, at any level, collects the same files as often, or fails alike |
| SourceTree.LookupConcat | crates/modal-rust-cli/src/describe_cache.rs:144-150 | resolving a path through a closure directory is resolving the rest inside it |
| KeyFraming.FieldIsDetermined | crates/modal-rust-cli/src/describe_cache.rs:123-128 | a length-prefixed field cannot run into what follows |
| KeyFraming.PreimageIsExact | crates/modal-rust-cli/src/describe_cache.rs:70-98 | two hashed byte strings are equal exactly when package, flag, lock file and entry list are |
| KeyFraming.PreimageExample | crates/modal-rust-cli/src/describe_cache.rs:70-98 | the hashed bytes of one small workspace, one by one |
| KeyFraming.LeqIff | crates/modal-rust-cli/src/describe_cache.rs:89-89 | the order of paths: a prefix first, else the smaller byte where they first differ |
| KeyFraming.SortSorts | crates/modal-rust-cli/src/describe_cache.rs:89-89 | sorting orders the entries by path and keeps each as often as it occurs |
| KeyFraming.SortForgetsOrder | crates/modal-rust-cli/src/describe_cache.rs:89-89 | when a path determines its content, sorted lists agree exactly when the multisets do |
| KeyFraming.SortIsStable | crates/modal-rust-cli/src/describe_cache.rs:89-89 | entries with one path keep the order they were found in |
| KeyFraming.SortKeepsPathOrder | crates/modal-rust-cli/src/describe_cache.rs:89-89 | for any entries, sorted lists agree exactly when under each path they hold the same in the same order |
| DescribeCache.JoinIsInjective | crates/modal-rust-cli/src/describe_cache.rs:169-177 | different component paths give different joined keys |
| DescribeCache.KeyIsExact | crates/modal-rust-cli/src/describe_cache.rs:65-98 | for closures inside the workspace two keys are computed from equal bytes exactly when package, flag, lock file and the multiset of sources agree |
| DescribeCache.KeyIsExactAnywhere | crates/modal-rust-cli/src/describe_cache.rs:65-98 | for any closures two keys are computed from equal bytes exactly when package, flag and lock file agree and, under each key path, the directories hold the same contents in closure order |
| ContentEdits.InputNames | crates/modal-rust-cli/src/describe_cache.rs:163-190 | with the names written out: exactly `Cargo.toml` and every name ending in `.rs` are cache inputs, and exactly `target` and `.git` are pruned |
| ContentEdits.EditChangesKeyIff | crates/modal-rust-cli/src/describe_cache.rs:130-190 | for a workspace with a key, giving one file another content, in the workspace or outside, leaves a key, and another one exactly when some closure directory has the file below it, the file is called `Cargo.toml` or ends in `.rs`, and no folder called `target` or `.git` is on the way down to it |
| ContentEdits.UnreachedEdit | crates/modal-rust-cli/src/describe_cache.rs:130-190 | an edit that no closure directory reaches leaves the hashed bytes as they were |
| ContentEdits.TargetModuleIsUnseen | crates/modal-rust-cli/src/describe_cache.rs:163-168 | so an edit of a Rust module in a folder `src/target` leaves the key |
| ContentEdits.LookupReplaced | crates/modal-rust-cli/src/describe_cache.rs:156-177 | replacing a file's content changes what is found at its path and nothing else |
| ContentEdits.HasKeyIff | crates/modal-rust-cli/src/describe_cache.rs:61-98 | there is a key exactly when the closure is known, its directories list to their end and every collected file can be read |
| ContentEdits.JoinSnoc | crates/modal-rust-cli/src/describe_cache.rs:170-176 | key paths have one `/` between components |
| DescribeCache.IrrelevantChange | crates/modal-rust-cli/src/describe_cache.rs:156-190 | an edit of trees confined to pruned folders, files that are no cache input, other entries and listing order keeps the key, present or absent, for any closure |
| DescribeCache.OutsideDirectoriesCollide | crates/modal-rust-cli/src/describe_cache.rs:144-148 | a source file moves from one outside directory to another, each keeping all else it has: the sources differ by place, the key, present or absent, does not |
| DescribeCache.ReadableHasKey | crates/modal-rust-cli/src/describe_cache.rs:61-64 | a workspace whose closure directories list to their end and whose files can be read has a key |
| DescribeCache.Hasher.UpdateField | crates/modal-rust-cli/src/describe_cache.rs:123-128 | feeds the eight-byte length, then the bytes |
| DescribeCache.Collector.WalkDir | crates/modal-rust-cli/src/describe_cache.rs:156-190 | the recursive push loop appends exactly what the walk collects, and stops with nothing at an unreadable directory |
| DescribeCache.Collector.CollectClosureFiles | crates/modal-rust-cli/src/describe_cache.rs:130-152 | the closure's directories are walked in turn, each keyed against its own root |
| DescribeCache.FeedLock | crates/modal-rust-cli/src/describe_cache.rs:79-87 | presence of the lock file is fed before its bytes |
| DescribeCache.FeedFiles | crates/modal-rust-cli/src/describe_cache.rs:90-95 | path and bytes are fed file after file, and the first unreadable file ends it |
| DescribeCache.EntriesAreExact | crates/modal-rust-cli/src/describe_cache.rs:88-89 | the sorted entries of two workspaces agree exactly when every file is covered equally often with the same content |
| DescribeCache.EntriesAnywhere | crates/modal-rust-cli/src/describe_cache.rs:88-89 | the sorted entries of any two workspaces agree exactly when every key path has the same contents in closure order |
| DescribeCache.Key | crates/modal-rust-cli/src/describe_cache.rs:65-98 | the step-by-step hasher is fed the preimage, and any unreadable input means no key; which files enter it is `ContentEdits.EditChangesKeyIff` |
| DescribeCache.Hex | crates/modal-rust-cli/src/describe_cache.rs:192-200 | the digest's lower-case hexadecimal |
| DescribeCache.HexReadsBack | crates/modal-rust-cli/src/describe_cache.rs:192-200 | the i-th byte is read back from its two characters, and none is a capital |
| DescribeCache.HexIsInjective | crates/modal-rust-cli/src/describe_cache.rs:192-200 | different digests have different file names |
| DescribeCli.KeyDecidesManifest | crates/modal-rust-cli/src/describe_cache.rs:65-98 | one cache file name stands for one manifest, here and on Modal, if builds read only the hashed sources and the digest has no collisions |
| DescribeCli.SameKeyIff | crates/modal-rust-cli/src/describe_cache.rs:65-98 | two cache file names are one exactly when package, flag, lock file and the contents under every key path are |
| DescribeCli.FlagChangesKey | crates/modal-rust-cli/src/programmatic.rs:346-357 | the same workspace gets another cache file name exactly when cargo's view of the target sets the generatable flag differently |
| DescribeCli.CacheIsCoherent | crates/modal-rust-cli/src/programmatic.rs:346-379 | where what is hashed decides the manifest, inside the workspace or out: after any sequence of describes, verifications, edits, cleans, failed or torn stores and damaged files, a describe returns the current source's manifest; and it answers as if nothing was ever cached exactly unless it hits on a source that does not describe here |
| DescribeCli.RemoteIsCoherent | crates/modal-rust-cli/src/programmatic.rs:528-596 | the same for a remote describe, which differs from an uncached one exactly when it hits and Modal would not answer |
| DescribeCli.CoherentIff | crates/modal-rust-cli/src/describe_cache.rs:21-24 | for any scope of workspaces, every describe after every run returns the source's manifest exactly when nothing outside what is hashed influences the manifest of a source that can be described |
| DescribeCli.CoherentInsideIff | crates/modal-rust-cli/src/describe_cache.rs:21-24 | for closures inside the workspace, exactly when nothing outside the closure's sources, package, flag and lock file does |
| DescribeCli.AssumedIsCoherent | crates/modal-rust-cli/src/programmatic.rs:346-379 | builds that read only the closure's sources are enough for it inside the workspace |
| DescribeCli.RemoteWarmsLocal | crates/modal-rust-cli/src/programmatic.rs:508-512 | a crate that builds on Modal only: after one remote describe the local describe answers, where uncached it fails |
| DescribeCli.OutsideClosuresMislead | crates/modal-rust-cli/src/describe_cache.rs:144-148 | in a world that keeps every assumption, a source file moves from one outside crate to another, each keeping all else it has; the described entrypoint changes and the cache answers with the old one |
| DescribeCli.LeftOutDependencyMisleads | crates/modal-rust/src/scope.rs:766-791 | the closure follows normal dependencies between members only: editing a build dependency, or a crate that is no member, leaves the key, and the cache answers with the manifest from before the edit |
| DescribeCli.VerifyAsksModalIff | crates/modal-rust-cli/src/programmatic.rs:647-653 | the remote leg of a verification asks Modal exactly when there is no key, or the local leg missed and its store failed |
| DescribeCli.UnaskedVerifyPasses | crates/modal-rust-cli/src/programmatic.rs:543-560 | when it does not ask, verification returns the local outcome whatever Modal would have described, as long as a torn write leaves nothing that decodes |
| DescribeCli.AskedVerifyCompares | crates/modal-rust-cli/src/programmatic.rs:597-653 | when it does ask, verification passes exactly when Modal's manifest has the same index of entrypoints and configs |
| DescribeCli.DivergenceGoesUnseen | crates/modal-rust-cli/src/programmatic.rs:495-497 | a divergence a remote describe would show and a verification with a working cache passes |
| DescribeCli.UndoneEditKeepsRunner | crates/modal-rust-cli/src/programmatic.rs:358-371 | editing a source and undoing the edit describes the first source with the second one's runner |
| DescribeCli.PinIsLastBuilt | crates/modal-rust-cli/src/programmatic.rs:784-793 | after any run the pin of a package is what pinning the runner of its last local build left, if nothing was cleaned since |
| DescribeCli.RunnerMatchesIff | crates/modal-rust-cli/src/programmatic.rs:358-371 | the runner returned is the described source's exactly when the describe builds or that last build left this very runner |
| DescribeCli.RunnerCanBeStale | crates/modal-rust-cli/src/programmatic.rs:358-371 | a world that meets every assumption of the coherence results, and a run in it that returns the wrong runner with the right manifest |
| DescribeCli.LocalMeans | crates/modal-rust-cli/src/programmatic.rs:311-507 | a local describe that finds nothing cached, by what the tools do: which failure, or the manifest with the built runner; a failure stores nothing |
| DescribeCli.RemoteMeans | crates/modal-rust-cli/src/programmatic.rs:528-596 | the same on Modal: no runner, no pin, and a failure changes nothing |
| DescribeCli.HitMeans | crates/modal-rust-cli/src/programmatic.rs:358-371 | a hit answers from the file and changes nothing; only an unrunnable package is refused ahead of it |
| DescribeCli.StoredIsHit | crates/modal-rust-cli/src/programmatic.rs:495-507 | what a successful describe stores is what the next one, local or remote, finds |
| DescribeCli.IndexMeans | crates/modal-rust-cli/src/programmatic.rs:605-613 | the index has exactly the names that occur, each with the config of its last occurrence |
| LocalValidation.WarmDescribeRejectsIff | crates/modal-rust-cli/src/programmatic.rs:358-371 | after any run, an input that the described source's own runner accepts is rejected exactly when the describe hits and the last local build left another runner that rejects it |
| LocalValidation.UndoneEditRejectsDecodableInput | crates/modal-rust-cli/src/programmatic.rs:662-672 | describe, edit, describe, undo, describe: the right manifest, an input its runner decodes and runs, and validation stops the call |
| DescribeCommand.DiffManifests | crates/modal-rust-cli/src/programmatic.rs:597-641 | reports every name that is absent on one side or configured differently once, nothing else, and nothing at all exactly when the indexes agree |
| DescribeCommand.IndexOf | crates/modal-rust-cli/src/programmatic.rs:605-613 | collecting into a map keeps the last config of each name |
| DescribeCommand.DiffKnown | crates/modal-rust-cli/src/programmatic.rs:617-626 | the first loop reports exactly the differing names known locally |
| DescribeCommand.DiffUnknown | crates/modal-rust-cli/src/programmatic.rs:627-631 | the second loop adds exactly the names known only remotely |
| DescribeCommand.Workbench.Store | crates/modal-rust-cli/src/describe_cache.rs:108-116 | a keyless store changes nothing; a failed write leaves the file alone or leaves other bytes in it |
| DescribeCommand.Workbench.ScopeRunnerArtifact | crates/modal-rust-cli/src/programmatic.rs:784-793 | the path returned holds this artifact whatever a failed removal, link or copy leaves at the pin |
| DescribeCommand.Workbench.BuildAndDescribe | crates/modal-rust-cli/src/programmatic.rs:311-507 | answers and leaves the disk as the local describe function says: hit, rebuild on undecodable bytes, never store an empty manifest |
| DescribeCommand.Workbench.RemoteDescribeOutcome | crates/modal-rust-cli/src/programmatic.rs:528-596 | the same for the remote path, which shares the key |
| DescribeCommand.Workbench.VerifyManifestOutcome | crates/modal-rust-cli/src/programmatic.rs:647-653 | local leg, remote leg on the disk it left, comparison, local outcome |
| Pickle.EncodeBody | crates/modal-rust-sdk/src/pickle.rs:48-63 | the narrowing casts lose no bits: the written length is the key's |
| Pickle.EncodeStrKey | crates/modal-rust-sdk/src/pickle.rs:45-74 | writes the protocol header, one frame of the exact body length, and the body |
| Pickle.KeyRoundTrip | crates/modal-rust-sdk/src/pickle.rs:45-74 | the protocol-4 machine reads the key back, stopping exactly at the frame's end whatever follows |
| Pickle.KeysArePrefixFree | crates/modal-rust-sdk/src/pickle.rs:38-44 | no key's encoding is a prefix of another's, so the server's byte comparison is key equality |
| Pickle.ShortestFormIsUsed | crates/modal-rust-sdk/src/pickle.rs:48-60 | the opcode chosen fits the length and makes the smallest pickle of those that do |
| Pickle.KeyLayout | crates/modal-rust-sdk/src/pickle.rs:45-74 | every byte of a key of any length: header, frame length, the opcode its length calls for, length, text, memoize, stop |
| ObjectStoreSpec.ResolveKeepsOneToOne | crates/modal-rust-testkit/src/store.rs:44-78 | get-or-create keeps names and objects one to one exactly unless it creates under a live id |
| ObjectStoreSpec.DeleteKeepsOneToOne | crates/modal-rust-testkit/src/store.rs:81-96 | deleting an object drops exactly its name and keeps the rest one to one |
| ObjectStoreSpec.BatchUpdateMeaning | crates/modal-rust-testkit/src/store.rs:109-127 | a batch leaves the first write of each key, existing values kept, under `if_not_exists`, and the last write otherwise; all other keys stay |
| ObjectStoreSpec.MeaningDetermines | crates/modal-rust-testkit/src/store.rs:109-127 | that meaning fits one map only, so the loop's result is determined by it |
| ObjectStoreSpec.BatchUpdateCreated | crates/modal-rust-testkit/src/store.rs:109-127 | `created` is true exactly when the keys are pairwise distinct and all were absent |
| ObjectStoreSpec.CreatedBatchGrows | crates/modal-rust-testkit/src/store.rs:109-142 | a batch that reports `created` makes the dict longer by one key per entry |
| ObjectStores.ObjectStore.ResolveDict | crates/modal-rust-testkit/src/store.rs:44-59 | resolves or creates in place as the registry function says; queues untouched |
| ObjectStores.ObjectStore.ResolveQueue | crates/modal-rust-testkit/src/store.rs:62-78 | the same for queues |
| ObjectStores.ObjectStore.DeleteDict | crates/modal-rust-testkit/src/store.rs:81-87 | removes the object and its name; tells whether it existed |
| ObjectStores.ObjectStore.DeleteQueue | crates/modal-rust-testkit/src/store.rs:90-96 | the same for queues |
| ObjectStores.ObjectStore.DictUpdate | crates/modal-rust-testkit/src/store.rs:109-127 | the in-place loop with its running flag is the batch update; other dicts are untouched; an unknown id changes nothing |
| ObjectStores.ObjectStore.DictPop | crates/modal-rust-testkit/src/store.rs:130-133 | removes the key and returns what it held |
| ObjectStores.ObjectStore.DictClear | crates/modal-rust-testkit/src/store.rs:145-149 | empties that dict and no other |
| ObjectStores.ObjectStore.QueuePut | crates/modal-rust-testkit/src/store.rs:153-162 | appends the values in order |
| ObjectStores.ObjectStore.QueuePop | crates/modal-rust-testkit/src/store.rs:165-170 | takes up to n items from the front |
| ObjectStores.ObjectStore.QueueClear | crates/modal-rust-testkit/src/store.rs:177-181 | empties that queue and no other |
| Decimals.DecimalRoundTrip | crates/modal-rust-testkit/src/servicer.rs:458-458 | the printed counter reads back, so ids of different draws differ |
| Servicer.CandidatesCoincideIff | crates/modal-rust-testkit/src/servicer.rs:57-60 | two draws give the same id exactly when their numbers agree modulo 2^64 |
| Servicer.WrappedCounterSharesObject | crates/modal-rust-testkit/src/servicer.rs:57-60 | past 2^64 draws the next result fails: a run that creates one name over the live dict of another |
| Servicer.NamesMatchObjects | crates/modal-rust-testkit/src/servicer.rs:448-472 | with candidates drawn outside the lock by any number of clients, names and live objects are one to one in every state reached with at most 2^64 draws |
| Servicer.DeletedIdsStayDead | crates/modal-rust-testkit/src/servicer.rs:568-579 | the id of a deleted dict or queue is never live again, up to 2^64 draws |
| Servicer.NameKeepsId | crates/modal-rust-testkit/src/servicer.rs:448-472 | a name keeps its id until somebody deletes that id |
| Servicer.CreatorsAgree | crates/modal-rust-testkit/src/servicer.rs:581-606 | creators of one name with no delete of its id between them are answered with the same id |
| Servicer.LockMeans | crates/modal-rust-testkit/src/servicer.rs:457-471 | a known name is answered with its id and an unknown one looked up with nothing, both changing nothing; a creation makes a new object of its kind under `di-` or `qu-` and the draw's number |
| Servicer.DeleteMeans | crates/modal-rust-testkit/src/store.rs:81-96 | a delete takes the object and its names and leaves all others |
| Servicer.QueueConservation | crates/modal-rust-testkit/src/store.rs:153-180 | in every interleaving of puts, polls, clears and deletes of at most 2^64 draws, everything put is, in order, what was taken or dropped followed by what is still queued |
| Servicer.PollDelivers | crates/modal-rust-testkit/src/store.rs:165-170 | what a poll of at most n delivers, followed by what stays, is what was there; it is exactly n items, or fewer and the queue is left empty |
| Servicer.DeliveryIsDetermined | crates/modal-rust-testkit/src/store.rs:165-170 | that leaves no choice |
| Servicer.ClearQueueMeans | crates/modal-rust-testkit/src/store.rs:177-181 | a clear leaves that queue live and empty and the others as they were |
| DictHistory.DictHoldsItsWrites | crates/modal-rust-testkit/src/servicer.rs:493-565 | in every interleaving of at most 2^64 draws, what a live dict holds under a key is the outcome of that key's writes, in order, since its creation, last clear or last pop, where a write under `if_not_exists` counts only if the key is absent |
| DictHistory.UpdateMeans | crates/modal-rust-testkit/src/servicer.rs:493-505 | after an update of a live dict every key means what the batch means there |
| DictHistory.BatchByKey | crates/modal-rust-testkit/src/store.rs:109-127 | a batch treats each key on its own: its writes in order |
| CounterWrap.OneToOneUpTo | crates/modal-rust-testkit/src/servicer.rs:57-60 | every run of at most n draws keeps names one to one exactly when n is at most 2^64 |
| CounterWrap.DeadUpTo | crates/modal-rust-testkit/src/servicer.rs:57-60 | deleted ids stay dead in all runs of at most n draws exactly when n is at most 2^64 |
| CounterWrap.ConservedUpTo | crates/modal-rust-testkit/src/servicer.rs:57-60 | queue items are conserved in all runs of at most n draws exactly when n is at most 2^64 |
| CounterWrap.HeldUpTo | crates/modal-rust-testkit/src/servicer.rs:57-60 | live dicts hold what their writes left in all runs of at most n draws exactly when n is at most 2^64 |
| Servicer.QueueGet | crates/modal-rust-testkit/src/servicer.rs:627-645 | a blocking get polls at most ceil(timeout / 5 ms) + 1 times, only its last poll takes anything, and an empty answer comes only after the deadline; that poll delivers from the front exactly max(1, n_values) items, or all there are |
| MockServicers.MockServicer.BeginGetOrCreate | crates/modal-rust-testkit/src/servicer.rs:457-458 | drawing the candidate outside the lock is one step of the interleaved model |
| MockServicers.MockServicer.DrawOther | crates/modal-rust-testkit/src/servicer.rs:196-226 | an id of another kind is a draw from the same counter and nothing else |
| MockServicers.MockServicer.FinishGetOrCreate | crates/modal-rust-testkit/src/servicer.rs:459-471 | resolving under the lock is the next, answering the id or not-found |
| MockServicers.MockServicer.DeleteObject | crates/modal-rust-testkit/src/servicer.rs:677-687 | delete is one step and tells whether the id was live |
| MockServicers.MockServicer.DictUpdate | crates/modal-rust-testkit/src/servicer.rs:493-505 | a batch write is one step, answering `created` or unknown id; under every key the stored dict then means what the batch means there |
| MockServicers.MockServicer.DictGet | crates/modal-rust-testkit/src/servicer.rs:475-489 | a get answers what the dict holds under the key, or unknown id |
| MockServicers.MockServicer.QueuePut | crates/modal-rust-testkit/src/servicer.rs:610-622 | a put is one step, or unknown id |
| MockServicers.MockServicer.QueueClear | crates/modal-rust-testkit/src/servicer.rs:664-674 | a clear is one step, or unknown id |
| MockServicers.MockServicer.DictPop | crates/modal-rust-testkit/src/servicer.rs:508-522 | a pop is one step, answering what the key held |
| MockServicers.MockServicer.DictClear | crates/modal-rust-testkit/src/servicer.rs:555-565 | a clear is one step, or unknown id |
| MockServicers.MockServicer.PollQueue | crates/modal-rust-testkit/src/servicer.rs:635-642 | one poll under the lock takes from the front as the model does: exactly n items, or all there are |
| DictHandleSpec.DictRefinesMap | crates/modal-rust/src/dict.rs:162-201 | any run of get, put, put_if_absent, pop, contains and clear through pickled keys answers as a plain map from strings to values |
| DictHandleSpec.PresentIsNeverAbsent | crates/modal-rust/src/dict.rs:254-259 | a present value that fails to decode is an error, never absence; a pop has removed it all the same |
| DictHandleSpec.CallsByGets | crates/modal-rust/src/dict.rs:162-221 | every call told by the gets around it: a write is read back under its own key only, a put_if_absent writes where a get finds nothing and says so, a pop answers as the get before it |
| DictHandleSpec.StaleMeans | crates/modal-rust/src/dict.rs:162-251 | on a deleted dict a value that cannot be encoded is refused and every other call is not found |
| DictHandles.Dict.Perform | crates/modal-rust/src/dict.rs:162-251 | each typed call over the shared store is the byte-map call, other dicts untouched, and a deleted dict is not found |
| DictHandles.Dict.Write | crates/modal-rust/src/dict.rs:168-179 | put and put_if_absent send one entry, and a value that cannot be encoded sends nothing |
| SdkErrors.CaseDoesNotMatter | crates/modal-rust-sdk/src/error.rs:100-134 | the message classifier ignores ASCII case |
| SdkErrors.TransientIff | crates/modal-rust-sdk/src/error.rs:100-134 | a status is transient exactly for five codes, or when its message has one of nine phrases in it in any case; a transport error always is, the other kinds never |
| SdkErrors.LowerMeans | crates/modal-rust-sdk/src/error.rs:121-121 | case folding: the 26 capitals and no other character |
| Retry.Jitter | crates/modal-rust-sdk/src/retry.rs:121-130 | stays within the delay, any time up to it being possible, and overflows exactly from 2^64 - 1 nanoseconds on |
| Retry.JitterWraps | crates/modal-rust-sdk/src/retry.rs:121-130 | each time from zero up to the delay comes round once in every `delay + 1` random numbers |
| Retry.RetryTransient | crates/modal-rust-sdk/src/retry.rs:68-105 | stops at the first final call and returns its result unchanged, after at most max(1, max_attempts) calls and one jittered sleep between any two; it overflows only at the first delay of 2^64 - 1 nanoseconds or more, and never when base and cap are below that |
| Retry.FirstSuccessOrLastError | crates/modal-rust-sdk/src/retry.rs:80-104 | the result is the first success, or the last error after only transient ones |
| Retry.NoRetryAfterDeadline | crates/modal-rust-sdk/src/retry.rs:84-88 | on an ideal clock no retry starts at or after the deadline |
| Retry.DelayClosedForm | crates/modal-rust-sdk/src/retry.rs:98-101 | for a whole factor each delay is the geometric one, capped |
| Retry.DelayIsCappedOnce | crates/modal-rust-sdk/src/retry.rs:98-101 | for any growing factor, rounding included, each delay is the repeatedly scaled base, capped once |
| Retry.DefaultSleepsAreBounded | crates/modal-rust-sdk/src/retry.rs:46-56 | the default policy sleeps at most 11.3 seconds in all and never reaches the overflow |
| Retry.DefaultCalls | crates/modal-rust-sdk/src/retry.rs:46-56 | a call that blips at once every time is made exactly eight times under the default policy |
| ImageSpec.JsonEscape | crates/modal-rust-macros/src/specs.rs:405-421 | the one-pass push loop writes each character's escape in order |
| ImageSpec.EscapeRoundTrip | crates/modal-rust-macros/src/specs.rs:405-421 | an RFC 8259 string reader undoes the escaping and stops at the closing quote, whatever follows |
| ImageSpec.EscapeIsClean | crates/modal-rust-macros/src/specs.rs:405-421 | no control character, and no quote that is not right after a backslash |
| ImageSpec.JsonArr | crates/modal-rust-macros/src/specs.rs:356-363 | the list printer |
| ImageSpec.ParseImageToSpec | crates/modal-rust-macros/src/specs.rs:253-373 | components override earlier ones of their kind, and the collected image is printed |
| ImageSpec.LastOfKindCounts | crates/modal-rust-macros/src/specs.rs:280-345 | of each kind of component the last one in the call is what the image holds, wherever the others stand |
| ImageSpec.UnmentionedIsUnset | crates/modal-rust-macros/src/specs.rs:280-345 | a kind that is not mentioned stays unset |
| ImageSpec.PrintSpec | crates/modal-rust-macros/src/specs.rs:345-373 | only what was set is printed, in a fixed order |
| ImageSpec.ReadSpecText | crates/modal-rust-macros/src/specs.rs:345-373 | the printed text is one JSON object (section 4 of RFC 8259) with exactly the printed members |
| ImageSpec.MembersByName | crates/modal-rust-macros/src/specs.rs:345-373 | those members by name: `base`, `install_rust`, `apt`, `pip`, `run`, each there exactly when set, or not empty |
| ImageSpec.ImageRoundTrip | crates/modal-rust/src/remote.rs:330-334 | the facade's reader gives back every field, with omitted ones at their defaults |
| ScheduleSpec.CronRoundTrip | crates/modal-rust-sdk/src/ops/function/parse.rs:126-137 | a cron spec is read back exactly when its timezone has no colon |
| ScheduleSpec.CronSpelled | crates/modal-rust-macros/src/specs.rs:463-487 | refused exactly for a colon in either argument; else `cron:`, the timezone or `UTC`, a colon, the expression |
| ScheduleSpec.AcceptedCronRoundTrip | crates/modal-rust-macros/src/specs.rs:463-487 | whatever the macro accepts, the SDK schedules as written, with UTC by default |

## Left out

- Runner.Answer: JSON parsing, typed decoding, and the text of messages and backtraces are parameters, as is the quoting of a name inside a message; the panic hook is not modelled.
- RunnerProcess.Process.RunServe: every write is taken to succeed; the serve loop ignores write errors, so a failed one only loses its line. Web-server mode is one opaque call.
- RunnerLaws.PrimingIsInvisible: `enter` has one outcome per class, as the claim is false when it may change between attempts.
- RunnerLaws.EnterSucceedsAtMostOnce: requests are handled one at a time, as the serve loop does; threads racing on one class are not modelled.
- RunnerLaws.ValidateInputLocally: how the printed lines are searched for the envelope; a runner prints one line or is a silent one.
- RunPath.Next: create and publish are one await each; the cache, secret, volume, mount and image calls before them are part of the create. Fairness is not needed, as every run is finite.
- RunPathKeys.InvokeMeans: the options that resolution only copies are one field, apart from the memory the describe sets.
- RemoteHandles.RemoteHandle.ResolveFunction: the class follows one task nobody interrupts; interleavings are the step functions' subject.
- ObjectTags.Sanitize: characters are Unicode scalar values, and "alphanumeric" is ASCII, as in the source.
- DescribeCache.KeyIsExact: needs names that are unique, non-empty and free of separators in each directory, and lengths below 2^64, as file systems and memory ensure; paths that are not UTF-8 and symlink targets are out.
- DescribeCli.CacheIsCoherent: assumes no edit during one command, a collision-free digest, a torn write that leaves nothing that decodes, and that a source described both here and on Modal is described alike; it may build on one side only. That what is hashed decides the manifest is not a mere assumption but the exact condition, by `CoherentIff`: it fails for a build that reads a build dependency or a path dependency outside the workspace's members, neither of which enters the closure, and for a manifest that depends on where a member outside the workspace root is.
- DescribeCommand.Workbench.BuildAndDescribe: cargo always reports the artifact it built, so the fallback to the shared uplift path is not modelled; finishing the build and linking the runner are one step, and the shadow directory is left out.
- DescribeCommand.DiffManifests: the order of the reports, which follows the sorted names in the source, and their text.
- Servicer.NamesMatchObjects: the counter's increment is taken to wrap, where a debug build would stop.
- RunPathLaws.SharedTagUnpublishes: the two different ids are the server's choice.
- MockServicers.MockServicer.DrawOther: what mounts, images and volumes do with their ids; only their draws are modelled.
- Servicer.QueueGet: needs sleeps of at least 5 ms, and nanoseconds for the timeout's floating-point seconds.
- DictHandleSpec.DictRefinesMap: the value codec is any function that decodes what it encoded consistently; the bytes of pickled values are not modelled. Transport errors are not answers of the store.
- Retry.DelayClosedForm: whole factors only; `DelayIsCappedOnce` is the result for a float factor with its rounding.
- Retry.RetryTransient: durations are natural numbers of nanoseconds and `mul_f64` is any function; overflow of Duration arithmetic is not modelled. `retry_unary` is the loop under the default policy.
- ImageSpec.ParseImageToSpec: starts from literals already classified; diagnostics and token parsing are out. The reader knows no JSON numbers, which the printer never writes.
- ScheduleSpec.CronRoundTrip: period schedules, with their floating-point seconds, are not modelled.
- gRPC, TLS, sockets, authentication, blobs, volumes, secrets and the override hooks of the mock servicer.
- Deploy's own provisioning beyond holding the client lock; autoscaling, web endpoints and code generation for classes beyond the accessor.
- Config precedence, workspace discovery, doctor output and percent escaping: true, and easy.
