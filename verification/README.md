# Verified core of the 4SO platform factory

A Dafny 4.11 model of the parts of the platform factory whose correctness is least visible from reading
one function, with proofs over all inputs, all runs or all interleavings. `dafny verify dfyconfig.toml`
checks everything.

| area | files | what is proved |
|---|---|---|
| Reachability analyser | `PythonSyntax`, `ScopeWalk`, `PythonRuns`, `Reachability`, `Outcomes`, `ReachableNodes`, `DeadCode`, `StraightCode` | every node that any execution runs in a function's own frame is yielded; the exact set of reachable nodes of every body; the walk yields only reachable nodes if and only if it meets no dead code |
| Write-once publication | `FileSystem`, `Publication`, `PublicationSafety`, `PublicationHistory`, `PublicationRuns` | any number of publishers interleaved with a hostile environment; write-once, agreement, no temporary left, and over whole runs exactly when a publisher succeeds, fails and undoes it |
| Stable reads | `StableRead` | a read that succeeds saw the single content the file held throughout |
| Certification registry | `Certification`, `CertificationSafety`, `CertificationRuns`, `CertificationStore`, `CertificationAuthority`, `CertificationMeaning`, `CertificationSample` | the validator as invariant of rebind, migrate and release, with its exact condition; when each succeeds and what no run does without the authority; that catalog and holds determine a valid registry; accounting |
| Template rendering | `Templates`, `TemplateOrders`, `Rendering`, `JsonTrees` | replacement in any map order is one simultaneous substitution, and exactly when; the templates an author can see to be safe |
| Image inventory | `ImagePins`, `PinAgreement`, `PinPlaces`, `Text` | the Python pinner and the Go collector agree, and exactly when; the repository of every form of reference; what pinning changes, place by place |
| Receipt admission | `Admission`, `AdmissionRows`, `AdmissionOrders`, `AdmissionSafety`, `AdmissionOutcomes`, `AdmissionLaws`, `AdmissionChecks`, `AdmissionSample` | `validate_existing` as invariant of `merge`, exactly when a merge succeeds and what it writes, confluence of all orders, absorption, what an accepted document certifies |
| Staging and install | `NameOrder`, `Staging`, `StagingSafety`, `StagingRuns`, `StagingLimits`, `StagingInstalls`, `StagingLaws`, `StagingStore` | crash safety at every write, the limit at every cut, convergence of interrupted runs, exactly-once install, and that what was staged installs |
| Release payload | `ReleasePayload` | one canonical payload per component set; parsing accepts exactly those |
| Multipart transport | `Multipart`, `MultipartLaws` | split and reassemble round trip; when a split is a valid locator; that nothing else reassembles |
| Console markup | `ConsoleMarkup` | text attribution by the element stack |
| CRD normalisation | `CrdNormalization`, `CrdLaws` | exactly which resources are admitted, what the Kyverno normalisation changes, and that it refuses to run twice |

`Collections` holds optional values and distinctness, which several models share.

SHA-256, JSON encoding and decoding, bundle acquisition and verification, the image resolver and the clock
are function-valued or plain parameters. Where a property needs a law of one of them (digests that do not
collide on the files of a run, decoding that undoes encoding, writes that advance `ctime`) the law is a `requires` of that lemma. A crash is
a bound on the number of atomic writes a run may make; a failing command is a parameter that says for
which component it fails.

## Where the code is not what its text says

- `function_scope_nodes` says it walks "definitely reachable syntax"; it prunes dead code only in the function's
  top block and below `if`. Inside loops, `with`, `try`, `match` and `class` every statement is yielded, dead or
  not (`DeadCode.DeadCodeInLoopIsYielded`), and so are the result annotations of nested functions when annotations
  are deferred (`DeadCode.DeferredResultIsYielded`). Everything yielded is reachable if and only if the body is live:
  no visited statement follows one without a normal end, and no visited handler, `else` or `finally` block is
  unenterable (`DeadCode.PreciseIffLive`). Parameter annotations of nested functions are never yielded although they
  run in the enclosing frame when annotations are not deferred (`DeadCode.EagerAnnotationIsMissed`).
- `block_terminates` does not see that `while True` without `break` never ends (`DeadCode.EndlessLoopIsMissed`); the
  blocks on which it is right are those of `DeadCode.BlockTerminatesExactIff`.
- Publication is write-once only as long as no publisher rolls back: the rollback after a moved parent unlinks a
  target that another publisher may already have reported (`PublicationRuns.MovedParentLosesPublished`). A target
  stays through a run if and only if no step is a rollback in its directory, and a publisher rolls back if and only if
  it linked the target and made its final check while the parent path named another directory
  (`PublicationHistory.TargetKeptIffNoRollback`, `PublicationHistory.RollbackIffFailedCheck`). A parent that moves
  away and back between two checks escapes both: a publisher that has read a target it did not link can then pass
  its last check when another publisher has rolled that target back (`PublicationRuns.MovedAndBackLosesAccepted`); by
  `PublicationHistory.TargetKeptIffNoRollback` the target stands exactly when no such rollback came after its reading. A
  publisher that linked the target itself never succeeds without it (`PublicationHistory.LinkedSuccessIsPublished`).
- Rebind and migrate look holds and the foundation up by exact name, the validator by trimmed name; the exact
  condition is `CertificationSafety.KeysAgree`. `CertificationSafety.PaddedHoldBreaksRebind` gives the failing family,
  `CertificationSample` the registries: a padded hold under Rebind, one under Migrate, and a padded foundation.
- `merge` compares execution ids, provider references and request ids as they stand, `validate_existing` compares
  them stripped (`AdmissionSafety.MergeValidIff`, `AdmissionSafety.PaddedKeySlipsThrough`, and with the source's tables
  and two clients `AdmissionSample.PaddedKeyInTheSample`).
- Python's `strip` removes U+001C to U+001F and Go's `TrimSpace` does not, so an image value made of these is
  skipped by the pinner and collected by Go (`PinAgreement.PinnedIffCollected`, `PinAgreement.SeparatorImageSplits`); a
  reference that is only a tag is pinned to one Go refuses (`PinAgreement.TagOnlyImageRefused`).
- Sequential replacement is order-independent exactly on templates in which no known token directly follows a
  proper beginning of another (`TemplateOrders.OrderImmaterialIffClear`); literals with `$` are otherwise harmless.
  `${${catalogReleaseId}}` for namespace `ns` and release `namespace` gives `ns` or `${namespace}`
  (`TemplateOrders.NestedTemplateDependsOnOrder`).

## Model

| member | source | states |
|---|---|---|
| Reachability.StopsAfterSound | scripts/c7w_execution_authority_gate.py:87-98 | a statement after which the walk abandons its block completes normally in no execution |
| Reachability.BlockTerminatesSound | scripts/c7w_execution_authority_gate.py:74-85 | if `block_terminates` holds, no execution of the block completes normally, however conditionals nest |
| Reachability.BlockSound | scripts/c7w_execution_authority_gate.py:87-98 | every node run by any execution (or prefix of one) of a pruned block is yielded or an omitted annotation |
| Reachability.StmtSound | scripts/c7w_execution_authority_gate.py:100-129 | the same for one statement of every kind |
| Reachability.ReachableIsYielded | scripts/c7w_execution_authority_gate.py:70-131 | soundness of `function_scope_nodes` for every body and every execution; with eager annotations the only exceptions are parameter annotations |
| Outcomes.EndsExact | scripts/c7w_execution_authority_gate.py:87-129 | the ends computed from a statement's syntax (normal, returned, raised, broke, continued) are exactly the ends its executions have |
| Outcomes.BlockEndsExact | scripts/c7w_execution_authority_gate.py:74-85 | the same for every block |
| DeadCode.BlockTerminatesExactIff | scripts/c7w_execution_authority_gate.py:74-85 | `block_terminates` agrees with the executions of a block if and only if some statement is one the walk stops after or every statement can end normally |
| DeadCode.EndlessLoopIsMissed | scripts/c7w_execution_authority_gate.py:74-85 | `while True` with a body that only passes never completes and is not recognised |
| ReachableNodes.NodesExact | scripts/c7w_execution_authority_gate.py:70-131 | for every body, the nodes computed from its syntax and ends are exactly those some execution runs in the function's own frame |
| DeadCode.YieldedExactlyReachable | scripts/c7w_execution_authority_gate.py:70-131 | in every live body a node is yielded (or a parameter annotation that is evaluated) if and only if some execution runs it |
| DeadCode.PreciseIffLive | scripts/c7w_execution_authority_gate.py:70-131 | for every body whose nodes are told apart, all yielded nodes are reachable if and only if the body is live |
| StraightCode.TerminatesExactly | scripts/c7w_execution_authority_gate.py:72-85 | `block_terminates` is right about every block of simple statements, terminators, nested functions and conditionals, however nested |
| StraightCode.StraightIsExact | scripts/c7w_execution_authority_gate.py:70-131 | of every such body the walk yields exactly what some execution runs, parameter annotations of nested functions aside |
| DeadCode.DeadCodeInLoopIsYielded | scripts/c7w_execution_authority_gate.py:128-129 | a statement after `return` in a loop body is yielded although no execution reaches it |
| DeadCode.EagerAnnotationIsMissed | scripts/c7w_execution_authority_gate.py:102-110 | a parameter annotation of a nested function can run in the frame and is not yielded |
| DeadCode.DeferredResultIsYielded | scripts/c7w_execution_authority_gate.py:102-110 | a result annotation of a nested function is yielded although, deferred, it never runs |
| PublicationSafety.StepKeepsInv | scripts/c9_stable_snapshot.py:469-578 | every step of any publisher or of the environment keeps the publication invariant, and sealed files never change |
| PublicationSafety.ActShifts | scripts/c9_stable_snapshot.py:469-578 | what one call does to a publisher: it keeps its goal and directory, has a temporary inode that is its own or new, counts itself the creator exactly after its link, and comes to roll back exactly from a failed final check after it |
| PublicationSafety.ActDecides | scripts/c9_stable_snapshot.py:469-578 | success comes from the last parent check alone, made while the path names the opened directory; failure from a refused call alone; lookup, temporary file and link each directly follow a parent check that passed |
| PublicationHistory.TargetKeptIffNoRollback | scripts/c9_stable_snapshot.py:537-567 | in every run from the start, a present target entry is the same in all later states if and only if no later step is a rollback in its directory |
| PublicationHistory.RollbackIffFailedCheck | scripts/c9_stable_snapshot.py:537-567 | in every run a publisher stands at its rollback if and only if it linked the target and its last call was the final check, made while the parent path named another directory |
| PublicationHistory.TargetLostIffFailedCheck | scripts/c9_stable_snapshot.py:537-567 | in every run a step takes a present target away if and only if it is a call, in that directory, of a publisher whose last call was such a failed check |
| PublicationHistory.SuccessIffParentHeld | scripts/c9_stable_snapshot.py:486-567 | in every run, however the parent moves, a publisher has succeeded if and only if it made a last parent check (before accepting a present target, or after its link) while the path named its directory |
| PublicationHistory.FailsIffRefused | scripts/c9_stable_snapshot.py:470-567 | in every run a publisher has failed or is on its way out if and only if one of its calls was refused: a parent check, a target not sealed, changed or with other bytes, a copy that is not what was wanted |
| PublicationHistory.ActsOnlyChecked | scripts/c9_stable_snapshot.py:471-537 | in every run a publisher looks up the target, takes its temporary file for its own or links only when its last call was a parent check made while the path named its directory |
| PublicationHistory.LinkedSuccessIsPublished | scripts/c9_stable_snapshot.py:537-567 | however the parent moves, a publisher that linked the target and comes to success does so while the path names its directory and the target there is its own sealed copy of the wanted bytes |
| PublicationSafety.StepKeepsStable | scripts/c9_stable_snapshot.py:469-578 | with a stable parent every step keeps: successful publishers vouch for a read-only target with their bytes |
| PublicationSafety.TargetIsWrittenOnce | scripts/c9_stable_snapshot.py:537-567 | with a stable parent, a present target entry is the same entry in every later state |
| PublicationSafety.PublishedForGood | scripts/c9_stable_snapshot.py:391-567 | a publisher that returned left a read-only regular target with exactly its wanted digest and size, and that file and its bytes stay, whatever everybody does later |
| PublicationSafety.SuccessesAgree | scripts/c9_stable_snapshot.py:478-555 | of any number of publishers all that ever return successfully wanted the same digest and size |
| PublicationSafety.NoTempSurvives | scripts/c9_stable_snapshot.py:568-576 | with a stable parent the temporary entry is gone when its publisher returns, on success or failure |
| PublicationRuns.PublishesUndisturbed | scripts/c9_stable_snapshot.py:469-567 | an undisturbed publisher into a parent without the target returns successfully with the target its sealed copy |
| PublicationRuns.AcceptsUndisturbed | scripts/c9_stable_snapshot.py:478-487 | an undisturbed publisher that finds its bytes read-only accepts them and changes nothing |
| PublicationRuns.AcceptsConflict | scripts/c9_stable_snapshot.py:546-567 | an undisturbed publisher whose link meets its bytes, read-only, accepts them and succeeds, with its temporary entry gone |
| PublicationRuns.RollsBackAfterMove | scripts/c9_stable_snapshot.py:558-567 | a publisher that linked the target and finds the parent moved takes the target away |
| PublicationRuns.MovedParentLosesPublished | scripts/c9_stable_snapshot.py:558-567 | a concrete run in which a publisher has returned successfully and the target then disappears |
| PublicationRuns.MovedAndBackLosesAccepted | scripts/c9_stable_snapshot.py:484-487 | a concrete run in which a publisher accepts a present target and at the moment of its success, its directory named by the path, the target is gone |
| StableRead.FingerprintFd | scripts/c9_stable_snapshot.py:97-105 | block-by-block reading of an unchanged file yields the digest and size of its content |
| StableRead.StableFileFingerprint | scripts/c9_stable_snapshot.py:52-118 | success means the file held one content for the whole read, the digest is of that content, and the name showed that regular file at the second call and, with its size and `ctime`, at the last; on an untouched file it succeeds |
| StableRead.VerifiedOpen | scripts/c9_stable_snapshot.py:122-148 | if leaving the context does not raise, every read inside it saw the one content with the expected digest and size, and the name showed the file at the second call and at the last |
| StableRead.StableFileBytes | scripts/c9_stable_snapshot.py:151-170 | success returns exactly the one content held for the whole read, within the limit, of the file the name showed at the second call and at the last; on an untouched file it succeeds if and only if the content is within the limit |
| CertificationSafety.BoundOkIff | catalog/runtime_certification_registry.go:138-223 | a freshly bound contract satisfies the validator if and only if the registry spells the component as the validator reads it |
| CertificationSafety.RebindShape | catalog/runtime_certification_registry.go:283-323 | a successful rebind changes at most the one contract of that exact name, and an already bound one not at all |
| CertificationSafety.RebindValidIff | catalog/runtime_certification_registry.go:275-325 | a successful rebind leaves a valid registry valid for the updated catalog if and only if the source was bound already or the keys agree |
| CertificationSafety.PaddedHoldBreaksRebind | catalog/runtime_certification_registry.go:279-307 | from any valid registry with a hold on an unbound component, a padded hold name gives a valid registry that rebind leaves invalid |
| CertificationSample.PaddedHoldRegistry | catalog/runtime_certification_registry.go:279-307 | a registry of one contract, valid with its hold spelt `n ` for component `n`, which a successful rebind leaves invalid |
| CertificationSample.PaddedHoldMigration | catalog/runtime_certification_registry.go:331-393 | such a registry, bound and held, which a successful migration leaves invalid |
| CertificationSample.MisspeltFoundation | catalog/runtime_certification_registry.go:275-325 | a valid registry with the foundation's name padded, which a successful rebind leaves invalid |
| CertificationSafety.MigrateValidIff | catalog/runtime_certification_registry.go:331-393 | a successful migration leaves the registry valid for the catalog with the target if and only if the keys agree, and touches one contract |
| CertificationSafety.MigrateReplayRefused | catalog/runtime_certification_registry.go:357-362 | the exact migration just done is refused |
| CertificationSafety.ReleaseShape | catalog/runtime_certification_registry.go:398-449 | a successful release removes one hold and promotes one contract of the same exact name |
| CertificationSafety.ReleaseKeepsValid | catalog/runtime_certification_registry.go:398-449 | a successful release always leaves the registry valid for the same catalog, with the hold gone |
| CertificationRuns.ApplyFrame | catalog/runtime_certification_registry.go:275-449 | one call keeps all contracts and names; a resolved source stays resolved, and its release and digest stay unless that component is migrated with the transition authority |
| CertificationRuns.RunKeepsValid | catalog/runtime_certification_registry.go:98-449 | with trim-stable names every run of calls, failing ones included, keeps the registry valid for the evolving catalog |
| CertificationRuns.ResolvedForGood | catalog/runtime_certification_registry.go:291-336 | over any run a resolved source stays resolved and changes only through a migration of that component with the transition authority |
| CertificationRuns.ReplayRefused | catalog/runtime_certification_registry.go:327-362 | a completed migration is refused as long as no other authorized migration of the component intervenes |
| CertificationAuthority.MigratesExactlyWhen | catalog/runtime_certification_registry.go:331-393 | a valid registry is migrated if and only if the trimmed authority is the transition authority and the contract is bound to the previous of two distinct resolved sources of its component; that contract is then bound to the target and nothing else changes |
| CertificationAuthority.RebindsExactlyWhen | catalog/runtime_certification_registry.go:275-325 | a valid registry is rebound if and only if the source is resolved and the contract is unresolved or bound to it already; it is then bound to it, nothing else changes, and in the latter case nothing at all |
| CertificationAuthority.ReleasesExactlyWhen | catalog/runtime_certification_registry.go:398-449 | in a valid registry a hold is released if and only if the trimmed authority is the transition authority, the hold is its own and awaits a dependency transition, and the component is resolved |
| CertificationAuthority.UnauthorizedChangesNothing | catalog/runtime_certification_registry.go:275-449 | over any run in which no operation carries the transition authority every hold stays and every contract with a resolved source stays as it is |
| CertificationAuthority.HoldsForGood | catalog/runtime_certification_registry.go:395-449 | over any run no hold appears, and one goes only when the authority releases it by its exact name; a hold under review or of another authority never goes |
| CertificationAuthority.HeldNeverExecutable | catalog/runtime_certification_registry.go:275-449 | over any run from a valid registry with trim-stable names the component of a hold nobody lifts is never executable in any stage, and once resolved all its stages wait for the authority of the hold |
| CertificationMeaning.ContractIsDetermined | catalog/runtime_certification_registry.go:138-223 | two contracts valid for the same component, catalog and holds are, up to the white space the validator trims, equal |
| CertificationMeaning.OneContractEach | catalog/runtime_certification_registry.go:98-231 | a valid registry has one contract for every catalog component and no other |
| CertificationMeaning.RegistryIsDetermined | catalog/runtime_certification_registry.go:98-231 | two registries valid for the same catalog with the same holds have the same contracts, in whatever order |
| CertificationMeaning.HoldIsProper | catalog/runtime_certification_registry.go:117-136 | every hold of a valid registry is the only one on a catalog component other than the foundation, awaits a transition or a review, and has an authority, a reason and an `https` evidence address |
| CertificationMeaning.MigratesIff | catalog/runtime_certification_registry.go:331-393 | in any registry, valid or not, exactly when a migration succeeds |
| CertificationMeaning.ReleasesIff | catalog/runtime_certification_registry.go:398-449 | in any registry, valid or not, exactly when a release succeeds |
| CertificationRuns.LifecycleComplete | catalog/runtime_certification_registry.go:255-264 | true exactly when every stage is certified |
| CertificationRuns.Statistics | catalog/runtime_certification_registry.go:233-267 | every counter counts what it names; ready and blocked sources add up to the total |
| CertificationRuns.Accounting | catalog/runtime_certification_registry.go:138-267 | in a valid registry executor buckets plus held contracts make up the total, the other buckets and complete lifecycles are zero, and ready sources are those the catalog resolves |
| CertificationStore.IndexHolds | catalog/runtime_certification_registry.go:279-282 | the index gives for each exact name the last hold listed |
| CertificationStore.RegistryObject.RebindSource | catalog/runtime_certification_registry.go:275-325 | in place: the specified new registry on success, no change on refusal |
| CertificationStore.RegistryObject.MigrateSource | catalog/runtime_certification_registry.go:331-393 | in place: the specified new registry on success, no change on refusal |
| CertificationStore.RegistryObject.ReleaseHold | catalog/runtime_certification_registry.go:398-449 | in place: the specified new registry on success, no change on refusal |
| CertificationStore.RegistryObject.Validate | catalog/runtime_certification_registry.go:98-231 | the looping validator accepts exactly the valid registries |
| CertificationStore.CheckHolds | catalog/runtime_certification_registry.go:117-136 | accepts exactly good holds with distinct trimmed names, and indexes them by trimmed name |
| CertificationStore.CheckContract | catalog/runtime_certification_registry.go:138-223 | accepts a contract exactly when it satisfies the validator's clauses |
| Templates.SequentialIsSimultaneous | catalog/runtime.go:531-537 | with `$`-free values and a clear template, replacing in any order equals one simultaneous substitution |
| Templates.RenderString | catalog/runtime.go:532-537 | the replacement loop computes the sequential, and on clear templates the simultaneous, substitution |
| TemplateOrders.OrderImmaterialIffClear | catalog/runtime.go:531-537 | for any variables with plain names, all orders agree for all `$`-free values if and only if the template is clear |
| TemplateOrders.HazardOrdersDiffer | catalog/runtime.go:531-537 | the two orders of a hazard's variables differ when the variable behind takes the missing end of the token before it and the other a character that stands in no token of the first |
| TemplateOrders.ReleaseHazardDiffers | catalog/runtime.go:584-615 | an unfinished namespace token before a release token tells the orders apart with a namespace and a release id that `RenderComponent` admits |
| TemplateOrders.NestedTemplateDependsOnOrder | catalog/runtime.go:531-537 | `${${catalogReleaseId}}` for namespace `ns` and release `namespace` renders to `ns` in one order and `${namespace}` in the other |
| TemplateOrders.OrdinaryIsClear | catalog/runtime.go:531-573 | a template written as literals without `$` and known tokens is clear and has no foreign token |
| TemplateOrders.OrdinaryRenders | catalog/runtime.go:531-537 | rendering such a template in any order puts the values in place of the tokens and changes nothing else |
| Templates.UnresolvedIffForeign | catalog/runtime.go:555-573 | a rendered clear template contains `${` if and only if the template had one that opens no known token |
| Rendering.RenderIsDeterministic | catalog/runtime.go:530-553 | on every clear JSON tree `renderValue` has exactly one possible result, the simultaneous substitution |
| Rendering.UnresolvedTreeIffForeign | catalog/runtime.go:555-573 | the check after rendering fails exactly on trees with a foreign `${`, whatever the values and orders |
| ImagePins.PinImages | scripts/acquire_upstream_helm.py:331-354 | the recursive pinner succeeds exactly when every image gets a digest, and returns the rewritten tree and the set of pins |
| ImagePins.CollectImages | catalog/runtime.go:212-228 | the recursive collector adds exactly the collected references to those it was given |
| ImagePins.ImageReferences | catalog/runtime.go:248-266 | accepts exactly inventories whose references are digest-pinned and distinct, and returns exactly these, trimmed and in increasing order |
| ImagePins.VerifyInventory | catalog/runtime.go:291-331 | accepts exactly when the manifest text lacks the reserved endpoint, has a resource, and the inventory is good and equal, as a set, to what the manifest holds |
| PinAgreement.PinPassesGo | catalog/runtime.go:249-255 | a pin passes the Go digest check if and only if its repository is not empty |
| PinAgreement.PinnedIffCollected | scripts/acquire_upstream_helm.py:331-354 | the returned set equals what Go collects from the rewritten tree if and only if no image value is blank to Python alone |
| PinAgreement.InventoryVerifiesIff | scripts/acquire_upstream_helm.py:570-574 | the inventory written from the pins passes the two-way Go check if and only if there is no such value and no empty repository |
| PinAgreement.SeparatorImageSplits | scripts/acquire_upstream_helm.py:331-354 | the tree with the single image U+001C: the pinner returns nothing and Go collects it |
| PinAgreement.TagOnlyImageRefused | scripts/acquire_upstream_helm.py:331-354 | the tree with the single image `:tag` is pinned to a reference that the inventory check refuses |
| PinAgreement.PinningIsIdempotent | scripts/acquire_upstream_helm.py:331-354 | a second pinning succeeds, changes nothing, returns the same set and does not depend on its resolver |
| PinPlaces.TagIsDropped | scripts/acquire_upstream_helm.py:320-328 | the repository of `name:tag` is `name`, and its pin `name@` and the resolved digest |
| PinPlaces.UntaggedIsKept | scripts/acquire_upstream_helm.py:320-328 | a reference without `@` whose every colon has a slash after it, such as one with a registry port, is its own repository |
| PinPlaces.DigestIsCut | scripts/acquire_upstream_helm.py:320-345 | the repository of `name@rest` is `name`, and a reference with a sha256 digest is pinned to itself |
| PinPlaces.PinnedInPlace | scripts/acquire_upstream_helm.py:331-354 | pinning leaves every path and value of the tree where it was, except that an image field holds the pin of what it held |
| PinPlaces.GoPinnedIff | catalog/runtime.go:248-255 | a reference is admitted if and only if, trimmed, it is a name that is not blank, one `@` and `sha256:` with 64 hexadecimal digits |
| AdmissionSafety.VerifiedRow | scripts/seal_mcp_external_interop.py:742-794 | every row that receipt and audit verification yield passes the row checks of `validate_existing`, with stripped keys |
| AdmissionSafety.ApartIffUnreused | scripts/admit_mcp_external_receipt.py:253-268 | on verified rows of different clients the reuse checks find exactly the pairs that `validate_existing` would refuse |
| AdmissionSafety.MergeValidIff | scripts/admit_mcp_external_receipt.py:234-276 | from any existing document a successful merge writes an acceptable one if and only if it replays an admitted client or shares no stripped key, receipt or challenge digest |
| AdmissionSafety.PaddedKeySlipsThrough | scripts/admit_mcp_external_receipt.py:253-260 | from any two compatible receipts, an accepted document with a padded execution id into which merge admits the same id and writes a document that is refused |
| AdmissionSafety.ReachableIsValid | scripts/admit_mcp_external_receipt.py:134-215 | every document that any run of merges reaches from nothing passes `validate_existing`, if no two of its receipt files collide |
| AdmissionSample.TwoAreAdmitted | scripts/seal_mcp_external_interop.py:30-43 | the source's clients, surfaces and check tables, a campaign, and two receipt files of two clients with different digests: every assumption made about admission holds of them and both are admitted |
| AdmissionSample.OrdersOfTheSample | scripts/admit_mcp_external_receipt.py:234-276 | in both orders the two receipts are admitted throughout and give the same document |
| AdmissionSample.PaddedKeyInTheSample | scripts/admit_mcp_external_receipt.py:253-260 | an accepted document and a receipt that merge admits into it with a result that is refused |
| AdmissionOrders.AllAdmittedIff | scripts/admit_mcp_external_receipt.py:253-271 | a run admits every attempt if and only if the attempts pairwise agree |
| AdmissionOrders.OrderImmaterial | scripts/admit_mcp_external_receipt.py:253-271 | for any scheme of agreeing checks, attempts that yield the same rows for the same clients end with the same rows in any order, repetitions included |
| AdmissionSafety.ConfluentAtAnyTime | scripts/admit_mcp_external_receipt.py:234-276 | if some receipts are admitted one after another, so are they in every other order, repetitions included, at all times at which they verify, with the same final document |
| AdmissionSafety.Confluent | scripts/admit_mcp_external_receipt.py:234-276 | in particular every order of the same attempts |
| AdmissionSafety.ReplayChangesNothing | scripts/admit_mcp_external_receipt.py:269-274 | a successful merge of an admitted client returns the document unchanged |
| AdmissionSafety.CompleteIsFixed | scripts/admit_mcp_external_receipt.py:239-274 | whatever the campaign, receipt and supersede switch, a merge refuses a complete document or returns it unchanged |
| AdmissionOutcomes.SupersedeStartsAfresh | scripts/admit_mcp_external_receipt.py:238-276 | a merge into a document of another campaign succeeds if and only if the switch is on, the document is valid and unfinished, however many rows it has, and the receipt verifies; the result holds the new row alone |
| AdmissionOutcomes.FirstMerge | scripts/admit_mcp_external_receipt.py:234-276 | without a document a merge succeeds if and only if the receipt verifies, and the document holds its row |
| AdmissionOutcomes.SameCampaignMerge | scripts/admit_mcp_external_receipt.py:249-276 | into a document of the same campaign a merge succeeds if and only if the document is valid, all its rows lie in the campaign's window, the receipt verifies, and its row is the client's own again or shares nothing with any row; the result has the old rows and that one, in canonical order |
| AdmissionSample.SupersedeInTheSample | scripts/admit_mcp_external_receipt.py:243-248 | a valid unfinished document with a row that a reissued campaign supersedes with the switch, and not without it |
| AdmissionLaws.RowIsDetermined | scripts/admit_mcp_external_receipt.py:141-230 | two rows that a campaign accepts for the same execution are, up to the white space that is stripped, equal |
| AdmissionLaws.RequestIdsAreOwn | scripts/admit_mcp_external_receipt.py:182-193 | an accepted document holds as many different request ids as it has rows times audited checks |
| AdmissionLaws.IdentitiesAreOwn | scripts/admit_mcp_external_receipt.py:114-215 | no two rows of an accepted document are of the same client, OAuth client or trusted client |
| AdmissionLaws.VerifiesIff | scripts/seal_mcp_external_interop.py:742-794 | a receipt verifies if and only if it is a live, external, credentialed one of the campaign without violations, answers the campaign's challenge to the client, and gives a row that `validate_existing` and the campaign's window accept |
| AdmissionLaws.RowsAreBrought | scripts/admit_mcp_external_receipt.py:234-276 | every row of every reachable document is the account of a receipt that one of the attempts brought |
| AdmissionLaws.AcceptedHeader | scripts/admit_mcp_external_receipt.py:114-132 | an accepted document is of the one protocol and transport, names its campaign, has three digests and binds exactly the clients |
| AdmissionLaws.AcceptedRow | scripts/admit_mcp_external_receipt.py:141-211 | the times, ids, references and digests of an accepted row lie within the bounds of the source |
| AdmissionLaws.FormatsIff | scripts/admit_mcp_external_receipt.py:160-175 | the bounds of the times, execution id and provider reference, both ways |
| AdmissionSafety.CompleteIffAllClients | scripts/admit_mcp_external_receipt.py:278-283 | a valid document is complete if and only if its rows are those of all clients in canonical order |
| AdmissionChecks.CheckRows | scripts/admit_mcp_external_receipt.py:141-211 | the row loop with its dictionaries of seen keys accepts exactly ordered, good, pairwise apart rows |
| AdmissionChecks.ValidateExisting | scripts/admit_mcp_external_receipt.py:134-215 | accepts exactly the valid documents and returns their rows by client |
| AdmissionChecks.LoadExisting | scripts/admit_mcp_external_receipt.py:238-251 | the rows of an existing document that carry over into a merge, or the refusal, as specified; AdmissionOutcomes says exactly when |
| AdmissionChecks.CollectUsed | scripts/admit_mcp_external_receipt.py:253-259 | the dictionaries of used keys tell exactly whether a row reuses something of an admitted row |
| AdmissionChecks.MergeReceipt | scripts/admit_mcp_external_receipt.py:234-276 | the looping merge computes the specified document or refusal; AdmissionOutcomes says exactly which |
| NameOrder.SortForgetsOrder | scripts/acquire_upstream_batch.py:180 | sorting by distinct names gives the same list for every order of the input |
| NameOrder.BelowIff | scripts/acquire_upstream_batch.py:180 | one name is below another if and only if, where they first part, it has the smaller character or has ended |
| StagingSafety.FileNameTells | scripts/acquire_upstream_batch.py:153 | a bundle file name determines component and version |
| StagingSafety.ReadyIs | scripts/acquire_upstream_batch.py:36-40 | the queue lists, in increasing order, exactly the ready rows |
| StagingSafety.EntryAcceptable | scripts/acquire_upstream_batch.py:143-176 | whatever `_stage_entry` returns for a row of the authority is acceptable to `validate_stage_manifest` |
| StagingSafety.StageKeepsValid | scripts/acquire_upstream_batch.py:314-355 | wherever a staging run is cut short, the manifest on disk is valid and no bundle has changed |
| StagingSafety.InstallKeepsManifest | scripts/acquire_upstream_batch.py:194-242 | an install leaves the authority and every manifest entry valid |
| StagingSafety.InstallStagedKeeps | scripts/acquire_upstream_batch.py:367-396 | wherever an install run ends: manifest valid, nothing installed twice; a normal return leaves every entry with its matching lock |
| StagingSafety.StepsKeep | scripts/acquire_upstream_batch.py:314-396 | over any mixture of staging and install runs, each cut short anywhere, authority and manifest stay valid and nothing is installed twice |
| StagingRuns.StageRecords | scripts/acquire_upstream_batch.py:325-346 | a run forgets nothing, a returning run has recorded all it selected, and a run with writes enough and no failure returns |
| StagingRuns.StageProgresses | scripts/acquire_upstream_batch.py:325-346 | every returning run records at least one more ready component while any is left; an unlimited one records all |
| StagingLimits.StagesLeastMissing | scripts/acquire_upstream_batch.py:325-346 | wherever a run is cut, what it records besides is the least of the ready components the directory lacked, in order of name: at most `limit` of them, and exactly that many, or all, when it returns |
| StagingLimits.LimitIsKept | scripts/acquire_upstream_batch.py:326-327 | at every cut at most `limit` components fewer are left, and when the run returns exactly as many fewer as the limit and what was left allow |
| StagingLaws.RowsAreUnresolved | scripts/catalog_upstream_admission.py:124-238 | a valid authority has a row for exactly the unresolved components, one for each |
| StagingLaws.EntryIsBacked | scripts/acquire_upstream_batch.py:194-242 | an accepted entry is of its component's release, names file and key after it, records the digest of the bundle on disk, and while the component is unresolved a ready row says the same |
| StagingLaws.StageOnlyAcquires | scripts/acquire_upstream_batch.py:331-343 | wherever a run is cut, it changed no bundle, and every bundle it added is that of a ready row, as acquired, whose acquisition did not fail |
| StagingLaws.StagedIsReported | scripts/acquire_upstream_batch.py:143-176 | however often staging is cut short, the verifier reports of the bundle of every recorded entry exactly what the entry records |
| StagingInstalls.InstallsLeastPending | scripts/acquire_upstream_batch.py:367-392 | wherever an install run is cut, it has installed the least of the entries that had no lock, each verified, and changed nothing else: their locks added with source and artifact, their components resolved, their rows retired |
| StagingInstalls.InstallReturnsIff | scripts/acquire_upstream_batch.py:245-392 | an install run that is not cut short returns if and only if the manifest is valid and every entry has a lock that agrees in source and artifact, or has none, verifies, and the validation after it passes |
| StagingLaws.StagedInstalls | scripts/acquire_upstream_batch.py:314-396 | what any staging runs from an empty directory left installs: an uncut run without failing validations returns and leaves every entry resolved and locked to what was staged |
| StagingRuns.StagingConverges | scripts/acquire_upstream_batch.py:314-355 | whatever limits and crashes, after as many returning runs as there are ready components the manifest is the one an uninterrupted run gives and covers exactly the ready components |
| StagingRuns.StagesAllIffStageable | scripts/acquire_upstream_batch.py:143-176 | some runs from an empty directory stage every ready component if and only if every ready bundle, as acquired, passes `_stage_entry` |
| StagingStore.CheckEntries | scripts/acquire_upstream_batch.py:203-241 | the entry loop accepts exactly distinct components, distinct files and good entries |
| StagingStore.StageDirectory.Validate | scripts/acquire_upstream_batch.py:194-242 | accepts exactly the valid manifests |
| StagingRuns.EndsBareIff | scripts/acquire_upstream_batch.py:325-351 | a returning run ends without a manifest if and only if it found none and nothing is ready |
| StagingRuns.BlockedIff | scripts/acquire_upstream_batch.py:345-355 | a returning run exits with 3 if and only if it found no manifest and there are rows, of which none is ready |
| StagingStore.StageDirectory.Stage | scripts/acquire_upstream_batch.py:314-355 | in place: the directory, outcome and exit code the specification gives, for every limit and allowance of writes |
| StagingStore.Repository.InstallStaged | scripts/acquire_upstream_batch.py:367-396 | in place: the repository, log and outcome the specification gives; the stage directory is not touched |
| ReleasePayload.Sorted | catalog/embed.go:178-190 | taking the components in any order yields exactly the map's components, by increasing wave and within a wave by increasing name |
| ReleasePayload.ArrangesUnique | catalog/embed.go:183-188 | there is only one arrangement, so neither map iteration nor an unstable sort has a choice |
| ReleasePayload.CanonicalReleasePayload | catalog/embed.go:217-238 | succeeds exactly on non-empty lists in which no trimmed name repeats and no name, version or kind is blank, and returns the payload and map |
| ReleasePayload.CollectIff | catalog/embed.go:219-229 | components are collected if and only if all are usable and no trimmed name repeats |
| ReleasePayload.PayloadForgetsOrder | catalog/embed.go:217-238 | all permutations of a component list have the same payload and map |
| ReleasePayload.ParseReleasePayload | catalog/embed.go:240-255 | computes the specified parse |
| ReleasePayload.ParsesIff | catalog/embed.go:240-255 | a text parses to a map if and only if it is the canonical payload of components with that map |
| ReleasePayload.DigestOfParsed | catalog/embed.go:192-196 | the digest of the parsed map is the hash of the payload, and no other |
| Multipart.PartNamesDiffer | scripts/distribution_transport.py:129 | part file names of different indices differ |
| Multipart.SplitFile | scripts/distribution_transport.py:111-144 | the rows and files of a split; refused if and only if not allowed or a target is in the way; exactly the parts are new and no existing file changes |
| Multipart.ValidateParts | scripts/distribution_transport.py:67-92 | accepts exactly indexed, hashed, addressed parts whose sizes add up, with the early refusal agreeing with the final one |
| Multipart.SplitValidIff | scripts/distribution_transport.py:67-144 | a split with valid addresses passes validation if and only if the object is at most 64 parts of the chosen size |
| Multipart.LargestPartSuffices | scripts/distribution_transport.py:111-144 | at the largest part size the split of every legal object passes validation |
| Multipart.ReassembleFiles | scripts/distribution_transport.py:147-173 | succeeds if and only if there is no output yet and the parts, in order and as described, make up the expected size and digest, which the output then is; an existing output stays as it is, and a refused run leaves a beginning of the good parts, never longer than expected |
| Multipart.SplitReassembles | scripts/distribution_transport.py:111-173 | the parts of any split reassemble to the original bytes |
| MultipartLaws.PartNamesSorted | scripts/distribution_transport.py:129 | up to ten thousand parts the file names sort in the order of the parts |
| MultipartLaws.OnlyInOrder | scripts/distribution_transport.py:147-160 | rows of a split, reordered, repeated or left out, pass the checks on the parts only as its first rows in their order |
| MultipartLaws.OnlyTheOriginal | scripts/distribution_transport.py:147-173 | in whatever directory the rows of a split pass the checks, without a collision of digests, the parts hold the bytes split and the object is the original |
| ConsoleMarkup.NodeRead | scripts/console_localization_coverage.py:113-127 | feeding any well-formed node attributes each text to its innermost element, records attributes in order and restores the stack |
| ConsoleMarkup.AllRead | scripts/console_localization_coverage.py:113-127 | the same for any document |
| ConsoleMarkup.NeverVoid | scripts/console_localization_coverage.py:113-123 | on any token stream no void element is ever open |
| ConsoleMarkup.EndTagCuts | scripts/console_localization_coverage.py:119-123 | an end tag cuts the stack before the innermost element of that name, or leaves it if there is none |
| ConsoleMarkup.RecordsGrow | scripts/console_localization_coverage.py:104-127 | nothing recorded is ever lost or changed |
| ConsoleMarkup.FoundExactly | scripts/console_localization_coverage.py:104-109 | of an element are recorded exactly its `aria-label`, `placeholder` and `title`, each with its value |
| ConsoleMarkup.Collector.RecordStart | scripts/console_localization_coverage.py:104-111 | in place: the attributes looked for, in order, and the push |
| ConsoleMarkup.Collector.HandleEndTag | scripts/console_localization_coverage.py:119-123 | in place: the backward search and cut |
| ConsoleMarkup.Collector.Collect | scripts/console_localization_coverage.py:130-136 | feeding a document's tokens leaves the document's texts and attributes and the stack as it was |
| CrdNormalization.WithOptionCarries | catalog/runtime_normalization.go:167-190 | the sync options carry the option, keep earlier non-blank ones as a prefix, and are not changed again |
| CrdLaws.OptionsRoundTrip | catalog/runtime_normalization.go:173 | splitting the options at commas yields comma-free texts that joined give the text back |
| CrdLaws.JoinedRoundTrip | catalog/runtime_normalization.go:173 | comma-free options joined with commas split into themselves again |
| CrdLaws.LeftAloneIff | catalog/runtime_normalization.go:167-190 | the options are left alone if and only if one of them, trimmed, is the value already |
| CrdLaws.NormalizesIff | catalog/runtime_normalization.go:118-190 | a resource is admitted if and only if it is no CRD, or has a metadata object in which a policies CRD has empty labels and annotations and any other CRD has none or an object of annotations whose sync options are a text |
| CrdNormalization.Normalize | catalog/runtime_normalization.go:106-210 | in place: succeeds exactly when the policies CRDs are the expected ones, each once, and every CRD can be normalised; the evidence counts and lists, sorted, the policies CRDs and all CRDs, and the removed labels are as many as the table has names |
| CrdNormalization.NormalizeRuntimeResources | catalog/runtime_normalization.go:106-210 | any component but Kyverno 3.8.2 is left alone with empty evidence; that one is normalised with its table, and the evidence of a success names and counts eleven stripped CRDs among all that are annotated |
| CrdNormalization.EvidenceSorted | catalog/runtime_normalization.go:202-210 | the evidence lists are sorted and hold exactly the expected policies CRDs and the names of all CRDs |
| CrdNormalization.MetadataDoes | catalog/runtime_normalization.go:126-190 | labels go exactly from the policies CRDs, which had empty ones; all other metadata stays; annotations gain the option |
| CrdNormalization.NormalizedDoes | catalog/runtime_normalization.go:118-192 | other resources are untouched; a CRD keeps everything outside its metadata and every other annotation, and carries the option |
| CrdNormalization.NotTwice | catalog/runtime_normalization.go:134-141 | applying the normalisation to its own result is refused |

## Left out

- ScopeWalk: expressions are trees of nodes without operators; comprehension scopes, `async` forms and generators are not distinguished, and assignments, deletes and imports are one kind of simple statement.
- Publication: the fallback without directory descriptors (scripts/c9_stable_snapshot.py:417-467), symbolic links and `fsync` are not modelled; the bytes copied are chosen by the interleaving and compared with the wanted digest, as the source's own change check would only refuse more.
- StableRead.StableFileFingerprint: `mtime` is not modelled, because every change already advances `ctime`; comparing it too could only refuse more. The exact-publication hook after a fingerprint is left out.
- PinImages: returns the rewritten tree instead of updating dictionaries in place, so aliasing between resources is not captured.
- CrdNormalization.Normalize: resources share no maps, as the property needs; what a refused run leaves half-edited is not stated. The Velero list normalisation is left out.
- StagingConverges: needs every ready bundle, as acquired, to pass `_stage_entry`, which StagesAllIffStageable shows to be the exact condition.
- AdmissionChecks.MergeReceipt: fields are typed, so the coercions of arbitrary JSON values are not modelled; timestamps are numbers, endpoints are already normalised, response observations and the source-lineage check are left out, and the audit export is the witness it yields.
- Staging: rows carry only what the runner reads; licence, chart, review and gateway checks of the authority are left out, and acquisition and `catalog-bundle` are parameters.
- StagingStore.StageDirectory.Validate: the fixed identity fields of the manifest document (apiVersion, kind, authority) are not modelled, because staging writes them as constants.
- AdmissionChecks.CheckRows: response observations are not part of a row, so their comparison with the expected ones is left out; the same holds for AdmissionSafety.VerifiedRow.
- AdmissionChecks.ValidateExisting: a trusted-client binding is one string, compared after stripping; its revision and provider are not modelled.
- RenderComponent's identity checks, `resourceIdentity` and `canonical_resources` are left out: they would add only easy members.
- `execute`, which acquires and installs in one command, `AdmissionBlockers`, `SourceLockDigest` and `validate_locator` are left out as easy members beside the ones modelled.
- The alias and exposure heuristics of the authority gate, the preflight scripts, network access, archive handling and file permissions are not modelled.
