# Verified models of the workspace's tools

This project models the algorithms and protocols that build, release and measure the rusty-bacnet
workspace, and proves properties of them: the feature resolver that keeps the support tables
honest, the release client and the gate before it, the signed bundle bytes, the guide and changelog
text machines, the profile reader with its gate, and the failure accounting of the stress clients.

Each model follows its source's own form. Code that updates things step by step is a class or a
method with a loop, tied by its `ensures` to a function on values; what the source promises is then
proved of that function, over all inputs, runs or reachable states. The modules named for rules and forms
say what the small decisions mean without the functions that make them: of characters, positions and
counts, and the functions are proved to agree.

`dafny verify dfyconfig.toml` checks everything.

| file | what it holds |
|---|---|
| `FeatureRules.dfy`, `FeatureClosure.dfy` | what entries, features and dependencies ask for, told of their texts; the closures, and that they are exactly that |
| `FeatureResolver.dfy`, `FeatureOrder.dfy` | the recursive resolver and what it finds; a workspace where the order of features decides |
| `ReleaseHost.dfy`, `ReleaseProtocol.dfy`, `ReleaseRuns.dfy` | the release host, whose writes may fail with or without effect; one draft; whole runs |
| `ChecksumList.dfy`, `Digest.dfy` | the SHA256SUMS format and its round trip; the digest |
| `CiGate.dfy`, `GateRules.dfy` | which CI runs count for a commit, and the verdict; both told of the listed runs' own fields |
| `BundleSignature.dfy`, `BundleForms.dfy`, `BundleAdoption.dfy` | stripping a signature block, its bytes, and adopting signed bundles |
| `GuideSample.dfy`, `GuideForms.dfy` | the strict fence extractor and its block grammar; which lines are what in it |
| `ChangelogSections.dfy`, `ChangelogEntries.dfy`, `CompareLinks.dfy`, `Changelog.dfy` | finding sections, rendering fragments, compare links, assembling and extracting |
| `ChangelogForms.dfy`, `EntryForms.dfy`, `LinkForms.dfy` | the same told of characters and fences: headings, sections, entries, links |
| `LinkChains.dfy` | the chain that the links form, and when a release keeps it |
| `ChangelogRuns.dfy`, `ChangelogFresh.dfy`, `ChangelogHistory.dfy` | what one release, and any number of them, keep |
| `ChangelogCode.dfy` | when code left open hides a release |
| `ReleaseNotes.dfy`, `NotesCut.dfy`, `NotesRoom.dfy` | cutting notes to a length, where the cut is, and the room that takes |
| `Callgrind.dfy`, `ProfileLines.dfy`, `MapSums.dfy` | reading profiles, what each of their lines says, sums over maps |
| `PerfGate.dfy`, `SlopeRules.dfy` | medians and the verdict; both told of the slopes |
| `FailureTally.dfy`, `StressSteps.dfy`, `StepTotals.dfy` | failure buckets, clients, joining and the validity of a step; what it reports, told of its clients |
| `Search.dfy`, `Sorting.dfy`, `Texts.dfy`, `ByteStrings.dfy`, `Numbers.dfy` | searching, sorting, characters and lines, bytes, the larger of two numbers |

## What turned out different from what is promised

- A dependency whose own key starts with `dep:` lets one entry be read in two ways: strictly when its
  feature is enabled, loosely when the dependency is enabled later. Then the order of the features on
  the command line decides. At one workspace, which the loader takes (`FeatureOrder.WorkspaceLoads`),
  `g1` before `g2` enables the feature `x` (`FeatureOrder.WaitingFirst`), and `g2` before `g1` does not
  (`FeatureOrder.EnablingFirst`). For every manifest the result lies between the closures of the two
  readings. They are one exactly when no entry that can be read loosely matters in the strict closure
  (`FeatureClosure.ReachUniqueIff`); then that closure is the result, and resolution fails exactly when
  it holds an unknown name.
- A file name that is empty, starts with white space or an asterisk, or holds a line break does not
  survive the SHA256SUMS format; white space inside a name does (`ChecksumList.SpaceSurvives`). A
  release staged with such a name can be published, and the check of a published release then refuses
  it: `ReleaseRuns.HeldIsSoundIff` says for exactly which names it accepts what staging leaves, and
  `ReleaseRuns.StarIsRefused` shows the name `*a`.
- Undoing a rewritten comment length restores the bundle exactly when the rewrite left the record
  magic that comes last where it was (`BundleSignature.UndeclareRedeclared`). The length 0x4b50 before
  the bytes 5 and 6 moves it (`BundleSignature.RewriteMoves`).
- A release keeps the chain of compare links exactly when its tag's own dots do not form the `...`
  first (`LinkChains.UpdateChainIff`, and `ChangelogHistory.ChainOfEveryRelease` for any number of
  releases). Every version that ends in a dot breaks it (`LinkChains.EndingDotBreaks`), for example
  `1.0.0-a.` (`LinkChains.ExampleBreaks`).
- The changelog script does not ask for code to be closed, and both tools skip headings in code. A
  release's notes are what was rendered for it exactly when the [Unreleased] note closes its code, and
  the new section does or is the last one (`ChangelogCode.ReleaseListedIff`). Below a note that leaves
  code open no release is found (`ChangelogCode.OpenNoteHides`); a note that is only an opening fence is
  one (`ChangelogCode.OpeningFenceHides`).
- A profile whose defined name is itself a definition, such as `(1) (2) a`, is not read like its
  expanded form (`Callgrind.NestedDefinitionDiffers`). Both forms give the same costs, wherever the
  profile is cut off and however it goes on, exactly when no text defined for a file or a function is a
  definition (`Callgrind.ParsesSameIff`).
- Every pair lower means a lower median exactly when both builds have the same number of ordinals
  (`PerfGate.PairsDecideIff`). The shape check asks for at least six of each, not for equal numbers.
- Truncated notes leave open exactly what the footer leaves open, which is nothing when the link
  target holds no line break. Notes may be refused although a shorter cut would fit: a long line of
  ticks with room for 50 characters is, while its cut at 24 fits (`NotesRoom.RefusedThoughFits`). For
  fences of up to `f` marks, three or more, no notes are refused exactly when more than `f + 2`
  characters are left beside the footer, or just two; without fences, exactly when at least two are
  (`NotesRoom.RoomIff`).

## Model

| member | source | states |
|---|---|---|
| `FeatureResolver.TransportFeatures` | crates/bacnet-integration-tests/support_tables.rs:562-580 | terminates on every manifest graph; what is found starts with the roots, holds all that its entries' own texts ask for (`FeatureRules.Follows`), holds no unknown name, and lies between the strict and the loose least closure; where no loosely read entry matters it is the least closure, and it fails exactly when that holds an unknown package, feature or key |
| `FeatureResolver.Resolver.AddCrate` | crates/bacnet-integration-tests/support_tables.rs:593-606 | success leaves the crate (and its default feature) enabled and every rule instance that uses a new fact concluded; failure names an unknown fact it reached |
| `FeatureResolver.Resolver.EnterCrate` | crates/bacnet-integration-tests/support_tables.rs:594-601 | the first visit of a crate enables its required dependencies, with all their consequences |
| `FeatureResolver.Resolver.AddDependency` | crates/bacnet-integration-tests/support_tables.rs:608-638 | the same for a dependency, including the weak features that waited for it |
| `FeatureResolver.Resolver.EnableDependency` | crates/bacnet-integration-tests/support_tables.rs:616-619 | the dependency's crate, default feature and declared features are enabled |
| `FeatureResolver.Resolver.ServeWaiting` | crates/bacnet-integration-tests/support_tables.rs:620-636 | every entry of the features enabled before that waits for the new dependency, `dep:` entries read loosely included, has its feature on it |
| `FeatureResolver.Resolver.ServeFeature` | crates/bacnet-integration-tests/support_tables.rs:628-635 | one waiting feature's entries on the dependency are served, in the loose reading |
| `FeatureResolver.Resolver.AddFeature` | crates/bacnet-integration-tests/support_tables.rs:640-661 | the same for a feature: declared, "default", implicit, or an error |
| `FeatureResolver.Resolver.AddEntries` | crates/bacnet-integration-tests/support_tables.rs:662-687 | every entry of a feature is done and none names an unknown key, or the feature is the culprit |
| `FeatureResolver.Resolver.AddEntry` | crates/bacnet-integration-tests/support_tables.rs:673-685 | one entry, `dep:`, weak, strong or plain, has what it asks for |
| `FeatureResolver.AddRoot` | crates/bacnet-integration-tests/support_tables.rs:570-572 | one feature named on the command line is enabled with all its consequences, within any set closed over what the search may still add |
| `FeatureResolver.Resolve` | crates/bacnet-integration-tests/support_tables.rs:562-580 | after the crate and after each named feature, the facts so far have grown to be closed and lie within every bound for that stage; failure names an unknown fact |
| `FeatureClosure.Compose` | crates/bacnet-integration-tests/support_tables.rs:592-688 | being closed beyond what a call found composes over consecutive calls |
| `FeatureClosure.ComposeNew` | crates/bacnet-integration-tests/support_tables.rs:592-688 | a new sound fact whose rule instances are concluded joins what its call added |
| `FeatureResolver.EntriesStayDone` | crates/bacnet-integration-tests/support_tables.rs:662-687 | entries done stay done while later calls enable dependencies that they wait for |
| `FeatureClosure.UniverseClosed` | crates/bacnet-integration-tests/support_tables.rs:592-688 | the facts over the names a workspace mentions are a finite closed set, the measure of termination |
| `FeatureClosure.ReachIsLeast` | crates/bacnet-integration-tests/support_tables.rs:582-591 | the closure is closed, holds the roots, and is inside every set that is and does |
| `FeatureClosure.ReachUniqueIff` | crates/bacnet-integration-tests/support_tables.rs:620-636 | the two readings give one closure exactly when no loosely read entry matters in the strict one |
| `FeatureClosure.ReachUnique` | crates/bacnet-integration-tests/support_tables.rs:620-636 | so they do when no dependency key starts with `dep:` |
| `FeatureResolver.ResolvedBetween` | crates/bacnet-integration-tests/support_tables.rs:562-580 | a finished search holds the whole strict closure and nothing unknown |
| `FeatureClosure.ReadIff` | crates/bacnet-integration-tests/support_tables.rs:673-685 | an entry without a slash that does not start with `dep:` is the feature of that name, `dep:k` is the dependency `k`, `k?/s` with no such mark earlier is weak, and `k/s` split at the first slash is strong |
| `FeatureClosure.WaitsIff` | crates/bacnet-integration-tests/support_tables.rs:627-634 | an entry waits for `k` with feature `s` exactly when it is `k?/s` with no such mark earlier; in the strict reading it must not start with `dep:` |
| `FeatureClosure.AsksIff` | crates/bacnet-integration-tests/support_tables.rs:662-672 | the key an entry needs declared is what follows `dep:`, else what precedes the first slash without the question marks that end it |
| `FeatureClosure.TrimIff` | crates/bacnet-integration-tests/support_tables.rs:667 | all question marks at the end go, and nothing else |
| `FeatureClosure.ClosedIff` | crates/bacnet-integration-tests/support_tables.rs:592-688 | a set is closed for the resolver exactly when whatever its packages, dependencies and entries ask for by their texts is in it |
| `FeatureClosure.BadIff` | crates/bacnet-integration-tests/support_tables.rs:651-672 | a fact is refused exactly when its package, its feature or a key its entries need is not declared |
| `FeatureResolver.ReachLeastByText` | crates/bacnet-integration-tests/support_tables.rs:562-580 | the closure is inside every set that starts with the roots and follows the texts |
| `FeatureResolver.ReachByText` | crates/bacnet-integration-tests/support_tables.rs:562-580 | and is one |
| `FeatureOrder.WorkspaceLoads` | crates/bacnet-integration-tests/support_tables.rs:512-543 | a concrete workspace renames no dependency, as the loader demands |
| `FeatureOrder.WaitingFirst` | crates/bacnet-integration-tests/support_tables.rs:608-638 | at that workspace, naming the waiting feature first enables the transport feature |
| `FeatureOrder.EnablingFirst` | crates/bacnet-integration-tests/support_tables.rs:608-638 | and naming the enabling feature first does not |
| `ChecksumList.RoundTrip` | scripts/release/release_api.py:110-121 | reading a written list gives the digests back, for all names that are not empty, start with neither white space nor an asterisk and hold no line break |
| `ChecksumList.RoundTripIff` | scripts/release/release_api.py:110-121 | for good digests, the list reads back exactly when every name is such a name |
| `ChecksumList.SpaceSurvives` | scripts/release/release_api.py:110-121 | white space inside a name is no obstacle |
| `ChecksumList.StarIsLost` | scripts/release/release_api.py:110-121 | the name `*a` is not read back |
| `ChecksumList.SumsTextInjective` | scripts/release/release_api.py:110-112 | two sets of good names and digests with the same text are the same |
| `ChecksumList.NamesAscend` | scripts/release/release_api.py:110-112 | names are listed each once, in the order of texts |
| `ChecksumList.ReadSums` | scripts/release/release_api.py:115-121 | the reading loop gives what the specification of the format gives |
| `ReleaseHost.Host.PostDraft` | scripts/release/release_api.py:265-268 | a POST creates one draft or none, whatever is answered |
| `ReleaseHost.Host.PostAsset` | scripts/release/release_api.py:285-287 | an upload leaves a complete asset, an incomplete one or none, whatever is answered, and a duplicate name is refused |
| `ReleaseHost.Host.DeleteAsset` | scripts/release/release_api.py:289-290 | a DELETE removes the asset or nothing, whatever is answered |
| `ReleaseHost.Host.PatchPublished` | scripts/release/release_api.py:300-304 | a PATCH makes the release public or changes nothing, whatever is answered |
| `ReleaseProtocol.Delete` | scripts/release/release_api.py:160-188 | a DELETE sent again while unanswered removes only that asset; success means it is gone; it gives up exactly at the first refusal or the fourth request without an answer |
| `ReleaseProtocol.DropIncomplete` | scripts/release/release_api.py:276-283 | only the incomplete assets are deleted, and no write is sent when there is none |
| `ReleaseProtocol.Arrived` | scripts/release/release_api.py:336-360 | after a lost answer, either exactly one complete asset of this name with this content is there, or none of this name is left |
| `ReleaseProtocol.Upload` | scripts/release/release_api.py:336-360 | under every pattern of lost answers, success leaves exactly one complete asset of that name with this content, the others untouched; it gives up only when a request is refused, its check fails, or the third upload does |
| `ReleaseProtocol.Unwanted` | scripts/release/release_api.py:384-400 | names exactly the assets that are foreign, duplicated or outdated |
| `ReleaseProtocol.WantedIsClean` | scripts/release/release_api.py:384-400 | without them, what is left is a correct part of the files |
| `ReleaseProtocol.RemoveUnwanted` | scripts/release/release_api.py:486-490 | leaves a clean draft, and sends nothing when it was one |
| `ReleaseProtocol.UploadMissing` | scripts/release/release_api.py:491-500 | completes a clean draft with every missing file |
| `ReleaseProtocol.PutSums` | scripts/release/release_api.py:506-517 | the draft then holds the right SHA256SUMS and still every file |
| `ReleaseProtocol.FillDraft` | scripts/release/release_api.py:483-503 | from any draft, success leaves exactly one complete correct copy of each file and the right SHA256SUMS; a draft that has that gets no write |
| `ReleaseRuns.FindRelease` | scripts/release/release_api.py:211-225 | the tag's only public release, else its only draft, else none; an error exactly when several public ones, or several drafts alone, have the tag |
| `ReleaseRuns.CreateDraft` | scripts/release/release_api.py:320-333 | however many answers are lost, at most one draft appears, and success gives it; it gives up only when a request is refused, the search fails, or the third request does |
| `ReleaseRuns.VerifyFinal` | scripts/release/release_api.py:431-462 | accepts exactly a release that holds the expected files; it stops otherwise only when one of its own requests failed |
| `ReleaseRuns.VerifyPublished` | scripts/release/release_api.py:403-419 | accepts exactly a release that matches its own SHA256SUMS and has every local name; it stops otherwise only when one of its own requests failed |
| `ReleaseRuns.HeldIsSound` | scripts/release/release_api.py:403-428 | what staging leaves, with good names, passes the check of published releases |
| `ReleaseRuns.HeldIsSoundIff` | scripts/release/release_api.py:403-428 | it does exactly when the names are good |
| `ReleaseRuns.StarIsRefused` | scripts/release/release_api.py:403-428 | a release that staging leaves with the name `*a` is refused |
| `ReleaseRuns.SumsHashNamesFiles` | scripts/release/release_api.py:520-573 | one SHA256SUMS hash stands for one set of files |
| `ReleaseRuns.DraftFor` | scripts/release/release_api.py:532-538 | the tag's draft for this commit, found or created; another commit's is refused |
| `ReleaseRuns.FillAndCheck` | scripts/release/release_api.py:539-540 | fills and verifies one draft, touching nothing else |
| `ReleaseRuns.StageDraft` | scripts/release/release_api.py:532-543 | success leaves the tag with one draft of the commit that holds exactly the files |
| `ReleaseRuns.Stage` | scripts/release/release_api.py:520-543 | no public release is touched or appears; success leaves the tag's draft with exactly the files, or accepts a sound public one; it stops exactly when what it finds cannot be staged (`ReleaseRuns.Unstageable`) or one of its own requests failed; staging again what is staged or released only reads |
| `ReleaseRuns.PublishRelease` | scripts/release/release_api.py:300-304 | only the draft flag of this release changes, if anything; it gives up exactly at the first refusal or the fourth request without an answer |
| `ReleaseRuns.Publish` | scripts/release/release_api.py:546-573 | the only change is that the staged draft becomes public, holding exactly the files whose hash was staged; it stops exactly when what it finds cannot be published (`ReleaseRuns.Unpublishable`) or one of its own requests failed; a staged draft is published, a sound public release only read |
| `ReleaseRuns.AfterStage` | scripts/release/release_api.py:520-573 | after staging, staging again gives the same pair without a write, and publishing that pair makes it public as the only write; both succeed when no request fails |
| `ReleaseRuns.AfterRelease` | scripts/release/release_api.py:520-573 | after that, publishing and staging only read, and accept when no request fails |
| `ReleaseRuns.Perform` | scripts/release/release_api.py:520-605 | every stage, publish and plan run spares public releases, and makes one public only as its own staged files |
| `ReleaseRuns.PerformAll` | scripts/release/release_api.py:520-605 | every sequence of runs is a history of such steps |
| `ReleaseRuns.PublicForever` | scripts/release/release_api.py:520-605 | over any sequence of runs, a public release stays as it is |
| `ReleaseRuns.NeverNamedAgain` | scripts/release/release_api.py:520-605 | no later run uploads to it, deletes from it or publishes it again |
| `ReleaseRuns.PublishedByOne` | scripts/release/release_api.py:546-573 | a release public at the end was so at the start, or one publish run made it so with exactly the files of its hash |
| `CiGate.CheckRuns` | scripts/release/ci_gate.py:72-83 | the loop over check runs keeps the latest of each name that Actions made |
| `CiGate.LatestCounts` | scripts/release/ci_gate.py:72-83 | what is kept for a name is listed, by Actions, with none newer; one is kept whenever one exists |
| `CiGate.LatestUnordered` | scripts/release/ci_gate.py:72-83 | the order of listing does not matter |
| `CiGate.PickIff` | scripts/release/ci_gate.py:95-100 | what is picked is exactly this repository's newest run that is asked for |
| `CiGate.HeavyCiRun` | scripts/release/ci_gate.py:118-130 | the loop finds the newest CI run that is not lean |
| `CiGate.TagCiRun` | scripts/release/ci_gate.py:133-139 | the loop finds the newest CI run that the tag's push started on the commit |
| `CiGate.Evaluate` | scripts/release/ci_gate.py:142-179 | the two verdicts combined are the specification's, which `GateRules.EvaluatedIs` tells of the listed runs' fields |
| `CiGate.PassIff` | scripts/release/ci_gate.py:103-179 | passes exactly when the newest CI run that counts, every newer one being lean or not this tag's, and the newest native run have all their checks |
| `CiGate.NewestFailureFails` | scripts/release/ci_gate.py:118-179 | no older success hides a failure of the newest run that counts |
| `CiGate.Unordered` | scripts/release/ci_gate.py:72-179 | the verdict does not depend on the order of runs and check runs |
| `CiGate.OlderIgnored` | scripts/release/ci_gate.py:95-179 | runs older than the picked ones change nothing |
| `GateRules.VerdictIs` | scripts/release/ci_gate.py:103-115 | over the listed check runs' own fields: it fails exactly when a required name's counting check run is completed without success, or has a status that is neither completed nor one of the five waiting ones, or the run is completed and lists none; it passes exactly when all succeeded; it waits otherwise |
| `GateRules.LeanIs` | scripts/release/ci_gate.py:118-130 | a run is lean exactly when both heavy checks were skipped, or it is completed and lists neither |
| `GateRules.MineIff` | scripts/release/ci_gate.py:95-100 | a run counts for a workflow exactly when its path up to the `@` and its head repository are these |
| `GateRules.NewerIff` | scripts/release/ci_gate.py:95-100 | a run is newer when its start, or creation without one, is later as text, or the same and its id larger |
| `GateRules.CiRunIff` | scripts/release/ci_gate.py:118-139 | the CI run is this repository's newest that is not lean, or the tag's push's newest |
| `GateRules.NativeRunIff` | scripts/release/ci_gate.py:166-173 | the native run is this repository's newest |
| `GateRules.EvaluatedIs` | scripts/release/ci_gate.py:142-179 | the whole gate fails, waits or passes exactly when the two runs, by their checks' own fields, do: one failure fails, else a missing or unfinished one waits |
| `BundleSignature.LastHeader` | scripts/release/mcpb.py:286-307 | the header found in a signed bundle is the block's own |
| `BundleSignature.SplitBlock` | scripts/release/mcpb.py:286-307 | a bundle with a block splits into what precedes it, its length field undone |
| `BundleSignature.UndeclareExact` | scripts/release/mcpb.py:319-331 | a bundle with an exact trailer is left alone |
| `BundleSignature.UndeclareRedeclared` | scripts/release/mcpb.py:310-331 | undoing any rewritten comment length restores the bundle exactly when the last record stayed |
| `BundleSignature.RewriteMoves` | scripts/release/mcpb.py:310-331 | a concrete bundle whose rewritten length moves the record, so undoing it gives another bundle |
| `BundleSignature.SplitInvertsSign` | scripts/release/mcpb.py:286-331 | splitting a signed bundle gives the original byte for byte exactly then, rewritten or not |
| `BundleForms.SplitIff` | scripts/release/mcpb.py:286-307 | byte by byte: unsigned exactly without the footer at the end; signed exactly with the last header, a little-endian length and that many bytes before it; malformed otherwise; only a signed bundle comes back changed |
| `BundleForms.RecordIff` | scripts/release/mcpb.py:310-316 | the record is the last magic within a full comment and 1 MiB of the end, unless it is cut short |
| `BundleForms.UndeclareIs` | scripts/release/mcpb.py:319-331 | only the two bytes of the comment length change, to the little-endian count of what follows, unless that is too long or there is no record |
| `BundleForms.TrailerIff` | scripts/release/mcpb.py:334-350 | a strict reader takes the end exactly when those two bytes count what follows the record; otherwise both numbers are told |
| `BundleForms.BundleIff` | scripts/release/mcpb.py:472-477 | a bundle's name is something and then `.mcpb` |
| `BundleAdoption.ListBundles` | scripts/release/mcpb.py:475-480 | exactly the names of the bundle files, and exactly one error for each other entry |
| `BundleAdoption.CompareBundles` | scripts/release/mcpb.py:483-496 | exactly the errors there are in comparing each bundle with its original |
| `BundleAdoption.AdoptErrors` | scripts/release/mcpb.py:462-497 | every error there is and no other, each of its own condition (`BundleAdoption.Wrong`); none exactly when all bundles are adoptable and name the release's own |
| `BundleAdoption.ReleaseDir.Adopt` | scripts/release/mcpb.py:500-512 | all or nothing; names stay; each bundle is unchanged or strips back to its original |
| `BundleAdoption.TakenIffCounted` | scripts/release/mcpb.py:310-350 | a correctly signed bundle is taken exactly when its record counts every byte after it |
| `BundleAdoption.UndeclaredRefused` | scripts/release/mcpb.py:462-497 | a block that was not declared is refused, whatever its size |
| `BundleAdoption.DeclaredTaken` | scripts/release/mcpb.py:462-497 | a block that was declared in full is taken |
| `GuideForms.RefusedIff` | crates/bacnet-integration-tests/sample_source.rs:59-88 | outside fences exactly these lines are refused, unless they are only spaces and tabs: those that start with one, with a bullet or a number and then space or nothing, with `>`, `:::`, `---` or `+++`, those that hold `<`, and those that start with `[` and hold `]:` or lack `](` |
| `GuideForms.DelimiterIff` | crates/bacnet-integration-tests/sample_source.rs:24-31 | a fence is three or more ticks or tildes at the start, all of them, and what follows |
| `GuideForms.ClosesIff` | crates/bacnet-integration-tests/sample_source.rs:49-57 | a line closes a fence exactly when it is up to three spaces, at least as many of its mark, and then only spaces and tabs |
| `GuideForms.OpenIs` | crates/bacnet-integration-tests/sample_source.rs:129-162 | which fences are refused and which wanted: a tick in a tick fence's info, a token with other than letters, digits, `_`, `-` and `+`, or text after the wanted language's token is refused; a fence is wanted exactly when its token is the language, in any case |
| `GuideForms.FrontIff` | crates/bacnet-integration-tests/sample_source.rs:110-117 | front matter is enclosed by two lines of three dashes; lines between them that start with three dashes or dots are refused |
| `GuideForms.AllWhitespaceIff` | crates/bacnet-integration-tests/sample_source.rs:122-124 | a content is empty when its bytes are only spaces, tabs, line feeds, form feeds and carriage returns |
| `GuideForms.MarkerIs` | crates/bacnet-integration-tests/sample_source.rs:108-109 | a line's text is it without one line feed and then one carriage return at its end |
| `GuideForms.BadEncodingIff` | crates/bacnet-integration-tests/sample_source.rs:94-101 | refused are a byte order mark, a carriage return without a line feed after it, and control characters but tab, line feed and carriage return |
| `GuideSample.InsideFence` | crates/bacnet-integration-tests/sample_source.rs:119-129 | inside a fence, the pass goes to the first closer and takes exactly what lies between |
| `GuideSample.PassGrammar` | crates/bacnet-integration-tests/sample_source.rs:92-177 | on a guide of the grammar, the pass gives what its blocks give |
| `GuideSample.GiveSole` | crates/bacnet-integration-tests/sample_source.rs:119-177 | blocks give a content exactly when it is that of their one wanted, not blank fence |
| `GuideSample.BlocksOf` | crates/bacnet-integration-tests/sample_source.rs:92-177 | every document that the pass accepts is a guide of the grammar |
| `GuideSample.PassRefinesGrammar` | crates/bacnet-integration-tests/sample_source.rs:92-177 | the pass accepts exactly the guides with one sole fence, with its bytes |
| `GuideSample.ReadLine` | crates/bacnet-integration-tests/sample_source.rs:107-163 | one turn of the loop over its variables is one step of the pass |
| `GuideSample.ReadAll` | crates/bacnet-integration-tests/sample_source.rs:102-177 | the loop with its offsets gives what the pass gives |
| `GuideSample.Extract` | crates/bacnet-integration-tests/sample_source.rs:92-177 | gives a content exactly when the document is well encoded, in the grammar, and that is its sole fence's |
| `GuideSample.LineStaysOpen` | crates/bacnet-integration-tests/sample_source.rs:49-57 | no line closes a fence longer than every run of its mark in the content |
| `GuideSample.WrapAmong` | crates/bacnet-integration-tests/sample_source.rs:92-177 | any admissible content in such a fence, of ticks or tildes, is extracted byte for byte from among any blocks without another fence of the language, front matter included |
| `GuideSample.WrapRoundTrip` | crates/bacnet-integration-tests/sample_source.rs:92-177 | and from a document of its own |
| `GuideSample.OpaqueContent` | crates/bacnet-integration-tests/sample_source.rs:119-129 | in every guide, with front matter or without, what other fences hold does not matter |
| `GuideSample.OpaqueFront` | crates/bacnet-integration-tests/sample_source.rs:107-118 | neither does what front matter holds |
| `ChangelogSections.FindSection` | scripts/changelog.py:214-231 | the loop that both tools run finds what the specified scan finds |
| `ChangelogSections.ScanParts` | scripts/changelog.py:214-231 | on a preamble and sections, the scan finds the first section that fits, code fences skipped |
| `ChangelogEntries.EachOnceInOrder` | scripts/changelog.py:101-114 | every fragment is listed once, by heading, then issue, then slug |
| `ChangelogEntries.Render` | scripts/changelog.py:360-371 | the loop over headings gives the specified lines |
| `ChangelogEntries.RenderedBullets` | scripts/changelog.py:353-371 | the rendered entries are the fragments' own, with their commit links, each once in that order |
| `CompareLinks.ReadTarget` | scripts/changelog.py:93 | read at the last `/compare/`, in any case, that a range follows, a written link target gives its base and the range split at its first dots, so it reads back exactly when the tag's own dots do not come first |
| `CompareLinks.ReadLine` | scripts/changelog.py:374-389 | the same for a whole link line |
| `CompareLinks.ReadUnreleased` | scripts/changelog.py:374-389 | so the new [Unreleased] link is read back exactly for such tags |
| `LinkChains.MovedIff` | scripts/changelog.py:374-389 | a moved link is the next link with the right row below it exactly when it was the right link and the tag's dots do not come first |
| `LinkChains.UpdateChainIff` | scripts/changelog.py:374-389 | after a release the links are an unbroken chain with its link on top exactly when they were a chain and the tag's dots do not come first |
| `LinkChains.ChainAround` | scripts/changelog.py:437-459 | lines without links, put in place of others, leave the chain whole |
| `LinkChains.EndingDotBreaks` | scripts/changelog.py:374-389 | every version that ends in a dot breaks the chain |
| `LinkChains.ExampleBreaks` | scripts/changelog.py:374-389 | the version `1.0.0-a.` does |
| `ChangelogForms.FenceIff` | scripts/changelog.py:90 | a fence is three backticks or three tildes after any space |
| `ChangelogForms.ScanIff` | scripts/changelog.py:214-231 | the pass finds a section exactly where it lies: its heading is the first fitting one with an even number of fences above it, and it ends where the next such heading is, or the lines do |
| `ChangelogForms.HeadingIff` | scripts/release/changelog_notes.py:27-57 | a heading is a version's exactly when its bracketed text, not empty and without a bracket, names it in any case, space around it aside |
| `ChangelogForms.NotesIs` | scripts/release/changelog_notes.py:40-64 | a version's notes are missing exactly without such a section, and otherwise those of the first one |
| `ChangelogForms.BodyNotesIs` | scripts/release/changelog_notes.py:61-64 | a section without text is empty, and of any other only the empty lines at its ends go |
| `ChangelogForms.ItemIff` | scripts/changelog.py:91-92 | an item or heading is up to three spaces, a bullet, a number with a dot or parenthesis, or one to six number signs, and then space or nothing |
| `ChangelogForms.NoteIff` | scripts/changelog.py:234-246 | [Unreleased] holds only a note exactly when no such line has an even number of fences up to and with it |
| `ChangelogForms.AssembledIs` | scripts/changelog.py:437-459 | assembling is refused exactly without an [Unreleased] section, with an item in its note, or with a later heading of the version; otherwise the section stands between the note, without its blank end, and the rest, blank lines between |
| `ChangelogForms.SectionIs` | scripts/changelog.py:449 | the section is its dated heading and, after a blank line, what was rendered |
| `EntryForms.RenderedFiled` | scripts/changelog.py:360-371 | read line by line, the rendered section has each line of each fragment, with its commit link, under the fragment's own heading, in release order; the headings are those that have fragments, in order, each once |
| `EntryForms.RenderedSpaced` | scripts/changelog.py:360-371 | a blank line stands before each heading and bullet but the first, and nowhere else |
| `EntryForms.LinkedIs` | scripts/changelog.py:353-357 | a known commit's link, its first seven characters for text, ends the entry's last line; nothing else changes |
| `EntryForms.ListedInOrder` | scripts/changelog.py:101-114 | fragments are listed by the fixed order of headings, numbered before unnumbered, by number, then by slug as text |
| `LinkForms.TargetIff` | scripts/changelog.py:93 | a link target is read exactly as the split with the longest base and then the shortest first end, and not at all exactly when it holds space or has none |
| `LinkForms.LineIff` | scripts/changelog.py:93 | a link line is `[Unreleased]:` in any case, and a target with any space around it |
| `LinkForms.UpdatedIs` | scripts/changelog.py:374-389 | a release changes exactly the first link line, into the two lines given character by character, and none with a link line of the version |
| `Changelog.ExtractNotes` | scripts/release/changelog_notes.py:40-64 | the extractor gives the notes of the specification, missing and empty sections told apart |
| `Changelog.SplitChangelog` | scripts/changelog.py:214-231 | the text splits at the [Unreleased] section the scan finds |
| `Changelog.HoldsNote` | scripts/changelog.py:234-246 | the loop finds whether [Unreleased] holds an entry or a heading outside code |
| `Changelog.Repository.AssembleRelease` | scripts/changelog.py:437-459 | the section is written and the fragments are gone, or nothing changes; an [Unreleased] section with entries is refused |
| `ChangelogRuns.SplitDoc` | scripts/changelog.py:214-231 | the split of a changelog's lines is at its [Unreleased] part |
| `ChangelogRuns.StepRefines` | scripts/changelog.py:437-459 | assembling on lines is inserting a part, and leaves a changelog that can be assembled again |
| `ChangelogRuns.UpdatePartsKeeps` | scripts/changelog.py:374-389 | updating links keeps every heading, fence and part without links |
| `ChangelogRuns.OwnHeading` | scripts/release/changelog_notes.py:56-58 | a release's heading is one of its version, in any case, and of no other |
| `ChangelogRuns.StepAdds` | scripts/changelog.py:437-459 | a release's section is the first of its version and its notes are what was rendered |
| `ChangelogRuns.StepKeeps` | scripts/changelog.py:437-459 | another release keeps it |
| `ChangelogFresh.ReadyAgain` | scripts/changelog.py:437-459 | a version that is new stays new while others are released |
| `ChangelogHistory.DocOf` | scripts/changelog.py:214-231 | every text that splits at [Unreleased] is a preamble and sections, its body and the rest being theirs |
| `ChangelogHistory.OpenOnlyAtEnd` | scripts/changelog.py:214-231 | code can be open at the end of [Unreleased] only when no section follows |
| `ChangelogHistory.TracedAssembles` | scripts/changelog.py:437-459 | assembling release after release on the text is stepping through its parts |
| `ChangelogHistory.NewChangelogTaken` | scripts/changelog.py:214-231 | a changelog of only the [Unreleased] heading can be assembled |
| `ChangelogHistory.FirstReleaseTaken` | scripts/changelog.py:437-459 | any first release is new to it, unless it is named after the heading |
| `ChangelogHistory.NotesOfEveryRelease` | scripts/release/changelog_notes.py:40-64 | from any text the script takes, after any releases of new versions, every version's extracted notes are exactly its rendered section |
| `ChangelogHistory.FragmentsOfEveryRelease` | scripts/changelog.py:360-371 | so each fragment is listed once in its release's notes, in the order of headings and issues |
| `ChangelogHistory.EarlierTextSurvives` | scripts/changelog.py:437-459 | every earlier part is still there, in order and line for line, apart from the [Unreleased] links and the links of the released versions |
| `ChangelogHistory.ChainOfEveryRelease` | scripts/changelog.py:374-389 | after any releases the links are one unbroken chain that ends at [Unreleased] exactly when they were before and no tag's own dots come first |
| `ChangelogCode.ReleaseListedIff` | scripts/changelog.py:437-459 | with any fragments and note, a release's extracted notes are what was rendered exactly when the note closes its code, and the section does or is the last |
| `ChangelogCode.OpenNoteHides` | scripts/release/changelog_notes.py:40-64 | below a note that leaves code open, the section of a new release is missing to the extractor |
| `ChangelogCode.OpeningFenceHides` | scripts/release/changelog_notes.py:40-64 | so it is below a note that is only an opening fence |
| `ReleaseNotes.FindOpenFence` | scripts/release/changelog_notes.py:67-79 | the loop finds the fence that is open after the text |
| `ReleaseNotes.CutAtLast` | scripts/release/changelog_notes.py:82-88 | the cut is at the last blank line that fits, else at the last line end |
| `ReleaseNotes.ClosingCloses` | scripts/release/changelog_notes.py:98-101 | closing the open fence leaves none open |
| `ReleaseNotes.Truncate` | scripts/release/changelog_notes.py:91-105 | the loop gives the specified notes or none |
| `ReleaseNotes.TruncatedFits` | scripts/release/changelog_notes.py:91-105 | cut notes fit, are a start of the body with its code closed and the footer, and leave open exactly what the footer does |
| `ReleaseNotes.TruncatedCloses` | scripts/release/changelog_notes.py:91-105 | with a link target without line breaks, no fence is open |
| `NotesCut.WholeIff` | scripts/release/changelog_notes.py:91-94 | a body that fits comes back as it is, and a longer one never whole |
| `NotesCut.TruncatedIs` | scripts/release/changelog_notes.py:91-105 | otherwise the notes are the body's start at the cut for the last limit tried, closed, and the footer; the limits tried start at the room beside the footer and each next falls by what the last was too long; notes are refused exactly when the limits reach nothing |
| `NotesCut.CutIndexIs` | scripts/release/changelog_notes.py:82-88 | a cut is at the last blank line before the limit, else at the last line end, else at the limit |
| `NotesCut.CutIs` | scripts/release/changelog_notes.py:82-101 | what is kept is the text before the cut without the line ends there, and closed |
| `NotesCut.ClosingIs` | scripts/release/changelog_notes.py:98-101 | closing adds a line end and, after open code, the fence that opened it |
| `NotesCut.FenceRunIff` | scripts/release/changelog_notes.py:29 | a fence line is up to three spaces, three or more backticks or tildes, all of them, and what follows |
| `NotesCut.FenceStepIs` | scripts/release/changelog_notes.py:67-79 | a fence opens when none is open, and closes when it has the same mark, at least the length and only space after it |
| `NotesCut.FenceAfterIs` | scripts/release/changelog_notes.py:67-79 | the fence open after some lines is the one such a step makes of that before the last line |
| `NotesCut.FooterLinks` | scripts/release/changelog_notes.py:95 | the footer is a blank line and words that link to the full changelog |
| `ReleaseNotes.LimitStays` | scripts/release/changelog_notes.py:96-104 | the limit falls by no more in all than a cut can be longer than its limit |
| `ReleaseNotes.RoomEnough` | scripts/release/changelog_notes.py:96-105 | notes are cut when more room is left beside the footer than the longest fence and two line ends take |
| `NotesRoom.RoomIff` | scripts/release/changelog_notes.py:91-105 | no notes with fences up to a length are refused exactly for these limits: more than that length and two beside the footer, or two; two or more when no fence can open |
| `NotesRoom.RefusedThoughFits` | scripts/release/changelog_notes.py:96-105 | a concrete body is refused although a cut at a lower limit fits |
| `Callgrind.ParseCallgrind` | scripts/perf/count_analysis.py:148-216 | the loop over tokens gives the tally of the profile's cost events, which `ProfileLines.TraceReads` tells of the lines |
| `ProfileLines.TraceReads` | scripts/perf/count_analysis.py:148-216 | each cost line's event, from the lines alone: its number is the last absolute position at or before it, or 0, plus the relative ones since; its file is the last one named, or the last `fl` when a function was named since; its function is the normalized last `fn`; it is a call's cost, from the last `fn` to the last `cfn`, exactly when a `calls` line stands before it with no cost line between |
| `ProfileLines.RefIff` | scripts/perf/count_analysis.py:162-169 | a name is an id exactly when it is digits in parentheses, with a text after a space when it defines one |
| `ProfileLines.ProfileIs` | scripts/perf/count_analysis.py:148-216 | a line, function or edge is in the profile exactly when an event is, and its cost and calls are the sums over those events |
| `ProfileLines.HarnessIff` | scripts/perf/count_analysis.py:219-227 | the harness is every function whose name holds its allocator's |
| `ProfileLines.HelperIff` | scripts/perf/count_analysis.py:228-229 | a helper call is one from it to a function whose name starts with `__aarch64_` |
| `Callgrind.ReadsAsItself` | scripts/perf/count_analysis.py:162-169 | a name written out reads as itself exactly when it is no definition |
| `Callgrind.ExpandedParsesSame` | scripts/perf/count_analysis.py:148-216 | ids and relative positions give the same lines, functions and edges as the expanded profile, when no text defined for a file or function is a definition |
| `Callgrind.ParsesSameIff` | scripts/perf/count_analysis.py:148-216 | they do wherever the profile is cut off, however it goes on and whatever normalizes symbols, exactly then |
| `Callgrind.ExpandExpands` | scripts/perf/count_analysis.py:162-179 | the expanded profile defines no id and has only absolute positions |
| `Callgrind.ExpandTwice` | scripts/perf/count_analysis.py:162-169 | the expanded form expands to itself exactly when no text defined for any kind of name is a definition |
| `Callgrind.NestedDefinitionDiffers` | scripts/perf/count_analysis.py:162-169 | a concrete profile where one is, and the two forms differ |
| `Callgrind.ParsedSums` | scripts/perf/count_analysis.py:202-216 | any selection of lines, functions or edges sums to its events, inclusive costs only in edges |
| `Callgrind.CostsConserved` | scripts/perf/count_analysis.py:202-216 | line costs sum to function costs, and with the edges' to every cost given |
| `Callgrind.HarnessShare` | scripts/perf/count_analysis.py:222-230 | the harness's share counts each of its own costs and each helper call once |
| `PerfGate.RankLower` | scripts/perf/count_analysis.py:251-252 | when every pair is lower, so is every order statistic |
| `PerfGate.MedianLower` | scripts/perf/count_analysis.py:251-252 | and so is the median |
| `PerfGate.PairsDecideIff` | scripts/perf/count_analysis.py:364-406 | lower pairs decide the median exactly for equal numbers of ordinals |
| `PerfGate.MedianWithin` | scripts/perf/count_analysis.py:251-256 | a median stays within any bounds of its values |
| `PerfGate.NoiseIsNoVerdict` | scripts/perf/count_analysis.py:331-406 | a candidate within the range of the baseline's two builds passes the instruction gate exactly where no saving is asked for |
| `PerfGate.SavingIsReal` | scripts/perf/count_analysis.py:364-406 | a row that passes the saving gate is more than two floors below every baseline slope |
| `SlopeRules.MedianIff` | scripts/perf/count_analysis.py:251-252 | the median is the middle value in ascending order, or the mean of the two middle ones |
| `SlopeRules.FloorIs` | scripts/perf/count_analysis.py:331-334 | no two slopes of the baseline's builds are further apart than the floor, and two are that far apart |
| `SlopeRules.JudgeIff` | scripts/perf/count_analysis.py:364-405 | the verdict, of the medians: a row that is not aimed at passes exactly when neither instructions nor allocation calls rise beyond their bounds, an aimed one exactly when it saves the minimum, more than three floors, and every pair is lower |
| `SlopeRules.RiseFails` | scripts/perf/count_analysis.py:364-405 | a row that is not aimed at fails when every candidate slope is above every baseline slope by more than the floor and 0.01, and passes, calls permitting, when none is above the least baseline slope by more than the larger |
| `SlopeRules.CallsRiseFails` | scripts/perf/count_analysis.py:404-405 | and the same of allocation calls and 0.01, whatever is aimed at |
| `SlopeRules.SavesAHundred` | scripts/perf/count_analysis.py:364-406 | an aimed round trip that passes saves at least 100 over some baseline slope |
| `SlopeRules.SavingPasses` | scripts/perf/count_analysis.py:364-406 | an aimed row passes when every pair is lower, the numbers of ordinals are equal and every candidate slope is below every baseline slope by the minimum and by more than three floors |
| `FailureTally.AddedAccounts` | benchmarks/src/stress/client_diagnostics.rs:41-49 | adding keeps at most 64 distinct buckets and accounts for what was added |
| `FailureTally.AddedCount` | benchmarks/src/stress/client_diagnostics.rs:41-49 | it changes one kind's count, and only when a bucket has room |
| `FailureTally.RecordReflects` | benchmarks/src/stress/client_diagnostics.rs:34-39 | one more failure: total, buckets and overflow stay those of the history |
| `FailureTally.MergeReflects` | benchmarks/src/stress/client_diagnostics.rs:51-59 | merging gives the tally of both histories: all accounted for, no kind overcounted, exact while nothing overflows |
| `StressSteps.Failures.Add` | benchmarks/src/stress/client_diagnostics.rs:41-49 | the bucket search and update is the specified addition |
| `StressSteps.Failures.Record` | benchmarks/src/stress/client_diagnostics.rs:34-39 | counts, times and the maximum are the specified ones |
| `StressSteps.Failures.Merge` | benchmarks/src/stress/client_diagnostics.rs:51-59 | the loop over the other's buckets is the specified merge |
| `StressSteps.Failures.AccountedFor` | benchmarks/src/stress/client_diagnostics.rs:61-63 | overflow plus the sum of the buckets |
| `StressSteps.LatencyRecorder.Merge` | benchmarks/src/stress/output.rs:209-213 | both counters add up |
| `StressSteps.FromClients` | benchmarks/src/stress/output.rs:122-134 | successes and errors are the sums over clients, timed to the last end |
| `StressSteps.TallyReflects` | benchmarks/src/stress/client_measure.rs:78-106 | a client's tally is that of the failed replies |
| `StressSteps.RunClient` | benchmarks/src/stress/client_measure.rs:78-106 | the request loop answers for its quota or until the deadline, recorder and tally agreeing on the failures |
| `StressSteps.StepReport.Fail` | benchmarks/src/stress/client_diagnostics.rs:107-114 | records the failure and unsets validity |
| `StressSteps.StepReport.Finish` | benchmarks/src/stress/client_diagnostics.rs:116-141 | adds the accounting failures and is valid exactly without any failure |
| `StressSteps.SortedIsRange` | benchmarks/src/stress/client_diagnostics.rs:117-125 | sorted indices equal their positions exactly when they are a permutation of the first n |
| `StressSteps.FinishIff` | benchmarks/src/stress/client_diagnostics.rs:116-141 | nothing is added exactly when a positive requested number started, completed as a permutation, and every error is classified |
| `StressSteps.StepReport.Collect` | benchmarks/src/stress/client_measure.rs:123-164 | joining lists the completed clients and lifecycle failures in order and merges every tally |
| `StressSteps.StepHistoryReflects` | benchmarks/src/stress/client_measure.rs:123-164 | merged errors, tally count and buckets plus overflow are the joined clients' failures, for any clients |
| `StressSteps.StepValid` | benchmarks/src/stress/client_diagnostics.rs:116-141 | nothing is found exactly when the requested clients, at least one, all ended well |
| `StressSteps.StepReport.Drive` | benchmarks/src/stress/client_measure.rs:53-121 | a whole step: its tally, point and failures are those of its clients' ends, its errors are their refusals, and it is valid exactly without earlier failures and when all requested clients ended well |
| `FailureTally.RecordTimes` | benchmarks/src/stress/client_diagnostics.rs:34-39 | one more failure: the time is the sum of all times, and the maximum the largest of them |
| `FailureTally.MergeTimes` | benchmarks/src/stress/client_diagnostics.rs:51-59 | so they are for two histories |
| `StepTotals.CountsAre` | benchmarks/src/stress/client_measure.rs:78-164 | successes and errors are together the answers that the joined clients got, the errors the refusals among them |
| `StepTotals.ElapsedIs` | benchmarks/src/stress/output.rs:122-134 | a step is timed to the last end of a joined client, no other ending later |
| `StepTotals.TimesAre` | benchmarks/src/stress/client_measure.rs:123-164 | the merged time and maximum are those of every refusal that a joined client got |
| `StepTotals.FailuresAre` | benchmarks/src/stress/client_measure.rs:123-164 | joining lists, client by client, that a client was not joined, or that its counters went backwards or it did not stop, each exactly when so, counters first |
| `StepTotals.AccountingIs` | benchmarks/src/stress/client_diagnostics.rs:116-141 | finishing adds one failure exactly when the requested clients, at least one, were not all started and joined, and never one for unclassified errors |

## Left out

- The BACnet stack itself: codecs, transports, router, server and client crates.
- TOML and JSON loading in `support_tables.rs`: the model starts from parsed manifests and reads the feature entries itself.
- HTTP requests, paging, retry delays and log text: a request is answered, refused or lost, and a lost write took effect or not.
- A lost write that takes effect only after later requests: an effect happens at its request or never.
- Other writers to the release host during a run.
- The tag check, release notes' text, prerelease flag and download probe in `release_api.py`: they do not change assets or drafts.
- `FeatureResolver.TransportFeatures`: where a loosely read entry matters, it gives the two closures as bounds; which facts between them are found depends on the order of visits.
- `ChangelogHistory.NotesOfEveryRelease`: asks for closed code in the note and in every release; `ChangelogCode.ReleaseListedIff` is exact for one release.
- The texts of errors and reports, including those of `plan`; which error it is counts, not its words.
- `ReleaseRuns.Plan`: it only reads, and its report is not modelled.
- SHA-256 is an injective stand-in that spells its input in characters without spaces: collisions are not modelled.
- Unsigned 64-bit and 128-bit counters are unbounded naturals.
- Zip packing, manifest checks and the smoke run in `mcpb.py`.
- UTF-8 validation in `sample_source.rs`: documents are bytes.
- Fragment parsing and its checks and commit lookup in git in `changelog.py`: fragments arrive validated, with their commit, and versions as the script's own pattern admits them, without spaces, brackets or slashes.
- Case is folded for ASCII letters only, and digits are ASCII digits.
- Splitting a profile's text into tokens, and the pattern that normalizes symbols, which is a parameter.
- Collecting slopes from run records, the shape check and the coverage check in `count_analysis.py`: they would only add easy members.
- Floating-point rounding: slopes are exact reals.
- HDR histograms, percentiles, clocks and task scheduling: replies, end times and panics are inputs.
- `ClientsDiagnostics::finish`: a conjunction over steps.
