# Super Phenix: a verified model of its protocols and state machines

Super Phenix is a cloud platform: an API that holds organizations, projects and their quotas, a
controller in each availability zone (AZ) that enforces them on Kubernetes, and an operator that
deploys the stack on clusters through Argo CD. This project models the parts of it where many steps,
many callers or many layers have to agree, and proves what they keep.

| Files | Part of the system |
|---|---|
| `Uuid5Resolver.dfy`, `Uuid5RoundTrip.dfy`, `Uuid5Tags.dfy` | the resolver of nested `<spx-uuidv5 ns name>` tags of the Argo CD plugin |
| `ValueTrees.dfy`, `DeepMerge.dfy` | the in-place deep merge of Helm values, with shared mappings |
| `Quantities.dfy`, `QuotaTranslation.dfy` | quota arithmetic on int64, and the translation to Kubernetes keys and back |
| `QuotaHierarchy.dfy`, `QuotaExcess.dfy`, `QuotaWrites.dfy`, `QuotaAnswers.dfy` | the quotas of an organization, its projects and their AZs, and every write of them, from any stored state |
| `QuotaRevisions.dfy`, `QuotaTornReads.dfy` | the revisions of quotas, and reads that a transaction cuts in two |
| `QuotaController.dfy`, `QuotaDelivery.dfy`, `QuotaLowering.dfy`, `QuotaLatePushes.dfy` | the AZ controllers, every interleaving of writes, pushes and removals, and what lowering a quota guarantees |
| `QuotaSync.dfy`, `QuotaAgreement.dfy` | pushing a quota to several AZs, deactivation and reactivation of a project, re-sync and what it guarantees |
| `ClusterConditions.dfy`, `ClusterStatus.dfy`, `ClusterSync.dfy`, `ClusterOutcomes.dfy` | the status of a cluster: conditions, phase, readiness |
| `PeriodicSync.dfy` | the periodic sync of Argo CD Applications, aborts, and the recorded sync times |
| `RelationTuples.dfy` | what groups and users are granted, as relation tuples |
| `AuditRecord.dfy` | the audit event of one request |
| `StringOrder.dfy`, `Wrappers.dfy` | the order of strings that listings are sorted by; optional values, minimum and maximum |

Code that works in place is modelled in place: a class with the fields of the original, or a heap of
mappings, whose loops and methods are proved equal to a function. The properties are then lemmas about
that function, and invariants of the class. What a function computes is also said without it, from the
inputs alone: the answers of the quota writes by exact sums (`QuotaAnswers`), those of a controller from the
stored quota and the push, the status of a cluster from what was observed (`ClusterOutcomes`), a single tag
character by character (`Uuid5Tags`).

## What the proofs found

Some properties one would expect do not hold of the code. Each is stated with the exact condition
under which it does, or with a run that breaks it.

- A null inside a mapping that the merge takes over whole stays in the values as a null. The merge is
  the JSON merge patch of section 2 of RFC 7396 exactly when every such mapping meets one in `dst`
  (`MergeIsPatchIff`, `NullLeftBehind`).
- A revision protects a quota less than it seems, because a controller keeps it on the ResourceQuota and
  only looks at it before a removal, not when it removes. In the runs of `QuotaDelivery`, as long as nothing
  is written, an AZ in line with the database leaves it in exactly four ways (`StaleDelivery`, and
  `StaysInSyncIff` for runs): older limits received once the quota is removed, its revision being removed with
  it (`StalePushResurrects`); other limits with the current revision, from a read that a transaction cut
  (`CutPushStrays`); a removal decided earlier and carried out once there is a quota again, whether it was
  decided on a push without a revision (`StalePushRemoves`) or was as new as what was stored then
  (`OvertakenRemoval`); and lowered limits, which carry no revision, of a transaction that has not committed
  or was overtaken.
- Lowering a quota pushes the lower limits before the transaction commits, so that the database never frees
  capacity that the cluster still grants. It can: the lowered push keeps the revision that is stored, so that
  a push of the quota before it, received once the transaction has committed, is as new and raises the limits
  again (`LatePushFrees`). The cluster grants no more exactly as long as no such push, no removal decided
  earlier and no higher lowered push comes (`LoweredNeverFreesIff`).
- The quotas of a project are read in three queries. A read cut by the deletion of the organization quota,
  by the split of a project quota or by the deletion of a project quota can have a wrong quota with a
  revision as new as what follows, or newer (`TornByDeletion`, `TornByProjectQuota`,
  `TornByProjectDeletion`); one cut by an organization quota is always older than what follows it
  (`TornByOrganizationQuota`).
- A transition time can move although the condition says the same after every sync: the health check writes
  to the same list before the sync, which compares with what it wrote. A time stays exactly when the health
  check also wrote nothing else of the condition (`StandsStillIff`). A cluster that can be reached and whose
  reconcile then keeps failing with a "not found" has its time moved by every reconcile (`ReachableFlaps`).
- `LastSync` is stored in whole seconds. Recorded syncs are a period apart in every run exactly when
  the period is in whole seconds (`AlwaysApartIff`).
- The scan for the oldest running operation takes the zero time for "none yet": it finds the oldest
  start exactly when a zero start, if there is one, is also the last (`OldestIsMinimumIff`).
- Writing tuples answers the outcome of the last batch of 99 only. A success means that all were written
  exactly when every tuple is also in the last batch: always for one batch, never for more without
  repeated tuples (`TrustworthyIff`).
- When a creation is rolled back on a route whose URL carries a resource, the audit row keeps that one,
  although the resource reported was dropped (`FinalResourceIff`, `DroppedResourceStays`).

Where the code and its comments differ, the model follows the code: `resync.go:52-54` says that a
controller ignores every stale push, `hierarchical.go:899-903` that a lowered quota never frees capacity the
cluster still grants, and the header of `status.go` that an empty phase becomes
"deploying", while an Application that says nothing of its sync makes it "unknown".

## Model

| member | source | states |
|---|---|---|
| `Uuid5Resolver.ParseArgs` | components/dependencies/uuidv5/parser.py:6-34 | the loop splits at spaces of depth 0, as the recursive splitter does |
| `Uuid5Resolver.ResolveText` | components/dependencies/uuidv5/parser.py:36-73 | the loop and its scans resolve a text as the recursive definition does, and end |
| `Uuid5Resolver.FindClose` | components/dependencies/uuidv5/parser.py:52-61 | the first `>` that brings the depth back to 0, or -1 |
| `Uuid5Resolver.ProcessTag` | components/dependencies/uuidv5/parser.py:75-97 | a tag becomes its UUID, an error with its namespace, or an invalid tag; always on strictly shorter arguments |
| `Uuid5RoundTrip.ResolvesPrintedText` | components/dependencies/uuidv5/parser.py:36-97 | for every tree of literals and nested tags, resolving its printed text gives the recursive value of the tree |
| `Uuid5RoundTrip.ResolvesPrintedTags` | components/dependencies/uuidv5/parser.py:44-44 | the same with the opening of the plugin |
| `Uuid5RoundTrip.ResolvesPieceByPiece` | components/dependencies/uuidv5/parser.py:36-73 | every text is cut into pieces that put together are the text; what is kept is unchanged and in order, every content is bracket-balanced and every argument a balanced token |
| `Uuid5RoundTrip.ArgumentsAreTokens` | components/dependencies/uuidv5/parser.py:6-34 | the arguments of a balanced content are non-empty, balanced, and without a space at depth 0 |
| `Uuid5RoundTrip.CutPrinted` | components/dependencies/uuidv5/parser.py:43-71 | the scan of a printed tree finds exactly its top-level tags |
| `Uuid5Tags.SpacesAre` | components/dependencies/uuidv5/parser.py:23-23 | the 29 characters that separate arguments, and that no visible ASCII character does |
| `Uuid5Tags.SingleTag` | components/dependencies/uuidv5/parser.py:36-97 | `<spx-uuidv5 ` with any number of words, blanks between and around them: the UUIDv5 of two words, or the error or the invalid tag that is left; the text around it stays |
| `Uuid5Tags.TwoArguments` | components/dependencies/uuidv5/parser.py:75-97 | a namespace and a name with one space, tab or line break between them |
| `Uuid5Tags.UnclosedStays` | components/dependencies/uuidv5/parser.py:68-71 | a text in which nothing closes stays as it is |
| `DeepMerge.Heap.MapDeepMerge` | pkg/utils/maps.go:6-20 | on disjoint trees of maps, in any key order: the result is stored in the maps of `dst` with the sub-maps of `src` shared, no other map is touched, and it ends |
| `DeepMerge.MergeLocatedErases` | pkg/utils/maps.go:6-20 | the merge in place is the merge of trees |
| `DeepMerge.MergeLocatedTree` | pkg/utils/maps.go:6-20 | the merged maps still form a tree: no map is shared twice |
| `DeepMerge.Heap.MergeValues` | internal/superphenix-operator/management/management_controller.go:533-568 | merging the layers found in place computes the left fold of the tree merge over them |
| `ValueTrees.LeafWins` | pkg/utils/maps.go:6-20 | along every path a leaf of `src` wins |
| `ValueTrees.NullDrops` | pkg/utils/maps.go:3-11 | where `src` holds a null no live value is left |
| `ValueTrees.DstKept` | pkg/utils/maps.go:6-20 | where `src` runs out, what `dst` holds is kept |
| `ValueTrees.LastLeafWins` | internal/superphenix-operator/management/management_controller.go:533-568 | of several layers, the leaf of the last one that has something at a path wins |
| `ValueTrees.MergeIsPatchIff` | pkg/utils/maps.go:3-20 | the merge equals the JSON merge patch if and only if every mapping of `src` holding a null meets a mapping of `dst` |
| `ValueTrees.NullLeftBehind` | pkg/utils/maps.go:12-18 | a null taken over with its mapping stays |
| `ValueTrees.MergeTwiceIsPatch` | pkg/utils/maps.go:6-20 | merging a layer twice is the JSON merge patch, whatever the layer |
| `Quantities.Add` | internal/superphenix-api/pkg/quota/resources.go:156-165 | the saturating union, whatever the order of the names |
| `Quantities.Sub` | internal/superphenix-api/pkg/quota/resources.go:205-211 | the difference clamped to 0 |
| `Quantities.SplitEqually` | internal/superphenix-api/pkg/quota/resources.go:217-226 | one share of each resource, nothing for no part |
| `Quantities.Exceeds` | internal/superphenix-api/pkg/quota/resources.go:229-237 | whether some limited resource is above its limit, and the first one in the order of the names |
| `Quantities.NamesInOrder` | internal/superphenix-api/pkg/quota/resources.go:229-237 | cpu is listed before disk, and disk before memory |
| `Quantities.TotalIsCappedSum` | internal/superphenix-api/pkg/quota/resources.go:252-257 | adding up any list gives the exact sum of each resource capped at MaxInt64, without overflow |
| `Quantities.TotalAnyOrder` | internal/superphenix-api/pkg/quota/resources.go:156-165 | in any order |
| `Quantities.ExceedsIsExact` | internal/superphenix-api/pkg/quota/resources.go:229-237 | checking the total agrees with exact arithmetic for every limit below MaxInt64 |
| `Quantities.LeftPlusTakenIffFits` | internal/superphenix-api/pkg/quota/resources.go:194-211 | what is left plus what was taken is the limit if and only if it was not exceeded |
| `Quantities.SplitConserves` | internal/superphenix-api/pkg/quota/resources.go:213-226 | the shares never exceed the whole, leave less than one unit per share, and drop no resource |
| `QuotaTranslation.Parse` | internal/superphenix-api/pkg/quota/resources.go:48-99 | the quantities of all entries, in any order: the number in thousandths for cpu and in units otherwise, rounded up; an error if and only if a name is not supported or a number does not parse, is negative or reaches MaxInt64 in its unit |
| `QuotaTranslation.ToKubernetesQuota` | internal/superphenix-api/pkg/quota/resources.go:102-110 | the loop sets the Kubernetes keys of each resource |
| `QuotaTranslation.KeysByText` | internal/superphenix-api/pkg/quota/resources.go:34-38 | the keys of cpu, memory and disk, by their text |
| `QuotaTranslation.HardIs` | internal/superphenix-api/pkg/quota/resources.go:102-110 | a request and a limit for cpu and memory, a request for storage, each what the quota says, and nothing else |
| `QuotaTranslation.FromKubernetesUsage` | internal/superphenix-api/pkg/quota/resources.go:117-135 | each resource with a readable key, with the highest of them |
| `QuotaTranslation.ReportsHighest` | internal/superphenix-api/pkg/quota/resources.go:112-135 | a resource is reported if and only if one of its keys has a number that is accepted, and what is reported is that of the highest, in its unit, rounded up |
| `QuotaTranslation.TranslationReadsBack` | internal/superphenix-api/pkg/quota/resources.go:102-135 | reading back a translated quota gives what parsing it gives, and nothing else |
| `QuotaTranslation.Effective` | internal/superphenix-api/pkg/quota/resources.go:276-287 | the own quota, and 0 for what only an ancestor limits |
| `QuotaTranslation.EffectiveAnyOrder` | internal/superphenix-api/pkg/quota/resources.go:272-287 | the order of the ancestors does not matter |
| `QuotaTranslation.EffectiveLevelByLevel` | internal/superphenix-api/pkg/quota/resources.go:272-287 | it can be computed one level at a time |
| `QuotaTranslation.HardEmptyIff` | internal/superphenix-api/pkg/quota/resources.go:268-287 | nothing is pushed if and only if no level limits a supported resource |
| `QuotaHierarchy.EnforcedWithinParents` | internal/superphenix-api/internal/db/crud/quota/hierarchical.go:816-817 | in every consistent state, the AZ quotas added up exactly over all projects stay within the organization quota, those of a project within its own, and are 0 for what only the organization limits |
| `QuotaHierarchy.CapacityIffFits` | internal/superphenix-api/internal/db/crud/quota/hierarchical.go:812-835 | as long as the children fit, checking only the increased resources is the same as checking that they still fit |
| `QuotaHierarchy.CapacityIff` | internal/superphenix-api/internal/db/crud/quota/hierarchical.go:812-835 | from any state, there is capacity if and only if every limited resource ends within the limit or no higher than it was |
| `QuotaHierarchy.LoweringHasCapacity` | internal/superphenix-api/internal/db/crud/quota/hierarchical.go:818-821 | a request that increases nothing its parent limits is never refused for capacity |
| `QuotaHierarchy.DistributeKeeps` | internal/superphenix-api/internal/db/crud/quota/hierarchical.go:588-610 | from any stored state, distributing an organization quota leaves no excess and hands out all but less than one unit per project |
| `QuotaExcess.CoverKeeps` | internal/superphenix-api/internal/db/crud/quota/hierarchical.go:612-642 | from any stored state, completing the project quotas leaves the organization without excess and raises that of no project |
| `QuotaExcess.ProjectKeeps` | internal/superphenix-api/internal/db/crud/quota/hierarchical.go:409-443 | from any stored state, an allowed project quota raises the excess of no level on any resource |
| `QuotaExcess.OneAZKeeps` | internal/superphenix-api/internal/db/crud/quota/hierarchical.go:794-810 | from any stored state, an AZ quota that fits raises the excess of no level on any resource |
| `QuotaHierarchy.SplitFits` | internal/superphenix-api/internal/db/crud/quota/hierarchical.go:655-671 | a project quota split among AZs covers them, whatever the organization limits |
| `QuotaHierarchy.AllocationIsQuota` | internal/superphenix-api/internal/db/crud/quota/hierarchical.go:678-715 | what the organization limits is allocated to a project as its project quota says |
| `QuotaExcess.UnlimitedKeeps` | internal/superphenix-api/internal/db/crud/quota/hierarchical.go:499-515 | without the organization quota no project exceeds its limit more than before |
| `QuotaExcess.RemoveKeeps` | internal/superphenix-api/internal/db/crud/quota/hierarchical.go:548-555 | without one of its projects an organization has no more excess than before |
| `QuotaExcess.NoWorseFits` | internal/superphenix-api/internal/db/crud/quota/hierarchical.go:816-821 | what raises no excess keeps a state without excess within its limits |
| `QuotaWrites.CheckCapacity` | internal/superphenix-api/internal/db/crud/quota/hierarchical.go:822-835 | the loop decides capacity on the increased resources |
| `QuotaWrites.CheckUsage` | internal/superphenix-api/internal/db/crud/quota/hierarchical.go:871-897 | accepted if and only if the cluster tracks every lowered resource and uses no more than its new limit; otherwise refused for the first resource, by name, that offends |
| `QuotaWrites.LoweredLimits` | internal/superphenix-api/internal/db/crud/quota/hierarchical.go:849-865 | the resources limited before and lowered, with their new value |
| `QuotaWrites.DroppedIsLowered` | internal/superphenix-api/internal/db/crud/quota/hierarchical.go:846-865 | a resource taken out of an AZ quota is lowered to 0 if and only if a parent limits it |
| `QuotaWrites.DistributeAmongProjects` | internal/superphenix-api/internal/db/crud/quota/hierarchical.go:593-610 | the loop gives each project what its AZs hold plus an equal share, nothing overflowing |
| `QuotaHierarchy.AllGivenDistributed` | internal/superphenix-api/internal/db/crud/quota/hierarchical.go:593-671 | by exact sums: each project gets, of every resource the organization limits and of no other, what its AZ rows add up to plus the whole part of what is left divided by the number of projects; one without AZ rows gets one in every AZ |
| `QuotaHierarchy.WithQuotaSaves` | internal/superphenix-api/internal/db/crud/quota/hierarchical.go:647-671 | a project without AZ rows gets one in each AZ, in order, with the names of the quota and each value divided by the number of AZs; other rows are unchanged |
| `QuotaAnswers.EnforcedAfter` | internal/superphenix-api/internal/db/crud/quota/hierarchical.go:645-671 | what is then enforced in each AZ: its part of the quota, or what its row said before |
| `QuotaAnswers.CoveredIs` | internal/superphenix-api/internal/db/crud/quota/hierarchical.go:612-642 | a project quota is completed with what the AZs hold of a resource that the organization limits and it omits, and keeps the rest |
| `QuotaWrites.CoverAZQuotas` | internal/superphenix-api/internal/db/crud/quota/hierarchical.go:616-642 | each project quota is completed with what its AZs hold of a resource it omits |
| `QuotaWrites.Organization.SetOrganizationQuota` | internal/superphenix-api/internal/db/crud/quota/hierarchical.go:376-407 | from any stored state: refused, with nothing changed, if and only if below what is allocated; otherwise distributed, every part being what exact sums give, or completed, no level exceeding its limit more than before, and none at all if none did |
| `QuotaWrites.Organization.SetProjectQuota` | internal/superphenix-api/internal/db/crud/quota/hierarchical.go:416-443 | from any stored state: its answer, exactly; the quota and the AZ rows written, split when there were none; and that no level exceeds its limit more than before, and none at all if none did |
| `QuotaWrites.Organization.SetProjectAZQuota` | internal/superphenix-api/internal/db/crud/quota/hierarchical.go:453-497 | from any stored state: its answer, in the order of the checks, and that no level exceeds its limit more than before; the cluster is asked only when something is lowered |
| `QuotaAnswers.OrganizationAnswerIs` | internal/superphenix-api/internal/db/crud/quota/hierarchical.go:376-407 | an organization quota is below what is allocated if and only if the exact sum of some limited resource, capped, is above its limit |
| `QuotaAnswers.ProjectAnswerIs` | internal/superphenix-api/internal/db/crud/quota/hierarchical.go:416-443 | the answer to a project quota by exact sums: below its AZ rows, or beyond what the other projects leave for something that increases, or written |
| `QuotaAnswers.AZAnswerIs` | internal/superphenix-api/internal/db/crud/quota/hierarchical.go:453-497 | the answer to an AZ quota by exact sums and by what the cluster tracks and uses of the resources it lowers |
| `QuotaAnswers.EnforcedIs` | internal/superphenix-api/pkg/quota/resources.go:268-287 | what is enforced in an AZ: its row, and nothing of what only a parent limits |
| `QuotaAnswers.WrittenIn` | internal/superphenix-api/internal/db/crud/quota/hierarchical.go:477-480 | an AZ quota is what was requested in its AZ, and leaves the others as they were |
| `QuotaWrites.Organization.DeleteOrganizationQuota` | internal/superphenix-api/internal/db/crud/quota/hierarchical.go:507-515 | from any stored state, the project quotas are kept and no level exceeds its limit more than before |
| `QuotaWrites.Organization.DeleteProjectQuota` | internal/superphenix-api/internal/db/crud/quota/hierarchical.go:534-545 | refused if and only if the organization has a quota; otherwise cleared, with no more excess than before |
| `QuotaWrites.Organization.DeleteForProject` | internal/superphenix-api/internal/db/crud/quota/hierarchical.go:550-555 | taking a project away leaves the organization with no more excess than before |
| `QuotaWrites.Organization.CreateProject` | internal/superphenix-api/pkg/services/project/project/project.go:242-245 | a new project has no quota and takes nothing |
| `QuotaRevisions.WritesMove` | internal/superphenix-api/internal/db/crud/quota/hierarchical.go:271-280 | every transaction leaves the quota of an AZ and its revision as they are, gives it a revision never drawn before, or leaves nothing limited |
| `QuotaRevisions.CommitKeeps` | internal/superphenix-api/internal/db/crud/quota/hierarchical.go:499-530 | over every history a revision names one quota of an AZ, and only grows until nothing is limited any more |
| `QuotaRevisions.ReadNotNewer` | internal/superphenix-api/internal/db/crud/quota/hierarchical.go:289-322 | the rows that three queries read, whatever transactions cut them, have no newer revision than the current one, unless nothing is limited any more |
| `QuotaController.Controller.SetQuota` | internal/superphenix-controller/pkg/api/k8s/quota.go:100-132 | every answer and what is stored after it, for every stored quota, usage and push, and whichever Kubernetes calls fail |
| `QuotaController.Controller.Apply` | internal/superphenix-controller/internal/k8s/quota/quota.go:79-162 | created, skipped when managed by GitOps or stale, refused below usage, replaced, or failed with nothing changed |
| `QuotaController.Controller.DecideRemoval` | internal/superphenix-controller/internal/k8s/quota/quota.go:211-248 | what an empty push decides on what it reads: a removal, unless nothing is stored, it is managed by GitOps, or stale |
| `QuotaController.Controller.Remove` | internal/superphenix-controller/internal/k8s/quota/quota.go:250-254 | the removal, of whatever is stored by then |
| `QuotaController.Controller.CheckNotBelowUsage` | internal/superphenix-controller/internal/k8s/quota/quota.go:189-206 | refused if and only if a limit is lowered below its usage |
| `QuotaController.RevisionMoves` | internal/superphenix-controller/internal/k8s/quota/quota.go:118-160 | a push of limits never replaces a newer quota; an empty one decides on a removal if and only if it is not stale and nothing is managed by GitOps |
| `QuotaController.PushKeepsUsage` | internal/superphenix-controller/internal/k8s/quota/quota.go:185-206 | across any push, every tracked limit that stays ends at least where it was, or at least at its usage |
| `QuotaController.AnswerToLimits` | internal/superphenix-controller/internal/k8s/quota/quota.go:79-162 | Kubernetes answering: a push of limits is invalid if and only if a number does not parse or is negative, left alone under GitOps or a newer revision, refused with nothing changed if and only if it lowers a tracked limit below its usage, and otherwise stored |
| `QuotaController.AnswerToNothing` | internal/superphenix-controller/internal/k8s/quota/quota.go:211-248 | an empty push decides on a removal unless nothing is stored, it is managed by GitOps, or newer |
| `QuotaController.AnswerUnreachable` | internal/superphenix-controller/internal/k8s/quota/quota.go:79-162 | a push that has to read or to write fails when Kubernetes does not answer |
| `QuotaDelivery.StoredIsGenuine` | internal/superphenix-api/internal/quotasync/resync.go:51-57 | in every interleaving of writes, pushes read in three queries, removals and lowered pushes, what a controller stores is what the database limited the AZ to at the stored revision, unless the last push to take effect was a lowered one or of rows that no committed state had; even then the revision is not newer than the database |
| `QuotaDelivery.NeverAstray` | internal/superphenix-api/internal/db/crud/quota/hierarchical.go:899-915 | the exception needs a lowered push, or a read that a transaction cut |
| `QuotaDelivery.CurrentPushWins` | internal/superphenix-api/internal/quotasync/quotasync.go:110-144 | once the push of the current quota has succeeded, whichever states it was read from, the AZ is in line with the database, whatever it stored and whatever came before |
| `QuotaDelivery.CurrentRemovalDecided` | internal/superphenix-controller/internal/k8s/quota/quota.go:232-248 | an empty push of the current quota always decides to remove what is stored |
| `QuotaDelivery.StaleDelivery` | internal/superphenix-controller/internal/k8s/quota/quota.go:228-248 | without a write, an AZ in line with the database leaves it if and only if the event is one of the four harmful kinds: limits after a removal, other limits with the current revision, a removal decided earlier, other lowered limits |
| `QuotaDelivery.RemovalsDecided` | internal/superphenix-controller/internal/k8s/quota/quota.go:211-248 | an event adds a pending removal if and only if it is an empty push, from whichever read, that has no revision or is as new as what is stored |
| `QuotaDelivery.StaysInSyncIff` | internal/superphenix-api/internal/quotasync/resync.go:51-57 | over every run without a write an AZ stays in line at every moment if and only if no event is harmful |
| `QuotaDelivery.Resynced` | internal/superphenix-api/internal/quotasync/resync.go:92-119 | without a write, an AZ in which the push of the current quota succeeds, with nothing harmful after it, ends in line with the database |
| `QuotaAgreement.ResyncAgrees` | internal/superphenix-api/internal/quotasync/resync.go:92-119 | a re-sync without an error or a failure leaves every AZ of every live project in line with the database, if nothing is written meanwhile, an AZ that answers a success has carried out the push, and nothing harmful reaches it after that; AZs managed by GitOps are left out |
| `QuotaLowering.FreesIff` | internal/superphenix-controller/internal/k8s/quota/quota.go:98-160 | an AZ that grants no more than given limits grants more after an event if and only if it is a push of higher limits that takes effect, a pending removal, or higher lowered limits |
| `QuotaLowering.CommittedIsPushed` | internal/superphenix-api/internal/db/crud/quota/hierarchical.go:466-490 | what is pushed before the commit is what the database limits after it |
| `QuotaLowering.LoweredNeverFreesIff` | internal/superphenix-api/internal/db/crud/quota/hierarchical.go:899-903 | from an accepted lowered push on, over every run through its commit and up to the next write, the AZ grants no more than the database then limits if and only if no event is one of these |
| `QuotaLatePushes.StalePushResurrects` | internal/superphenix-controller/internal/k8s/quota/quota.go:98-113 | a run in which a late push brings a removed quota back |
| `QuotaLatePushes.StalePushRemoves` | internal/superphenix-controller/internal/k8s/quota/quota.go:232-250 | a run in which a late empty push removes a newer quota |
| `QuotaLatePushes.OvertakenRemoval` | internal/superphenix-controller/internal/k8s/quota/quota.go:211-254 | a run in which a removal, not stale when decided, is carried out on a newer quota that was in line with the database |
| `QuotaLatePushes.CutPushStrays` | internal/superphenix-api/internal/db/crud/quota/hierarchical.go:289-322 | a run in which the push of a read cut by the deletion of the organization quota replaces the limits of an AZ in line with the database |
| `QuotaLatePushes.LatePushFrees` | internal/superphenix-api/internal/db/crud/quota/hierarchical.go:899-903 | a run in which a late push grants again the capacity that a lowered quota has freed |
| `QuotaTornReads.TornByOrganizationQuota` | internal/superphenix-api/internal/db/crud/quota/hierarchical.go:289-322 | a read torn by an organization quota has an older revision than what follows |
| `QuotaTornReads.TornByDeletion` | internal/superphenix-api/internal/db/crud/quota/hierarchical.go:499-530 | a read torn by the deletion of the organization quota has the newest revision, and the right quota if and only if the organization limited nothing more than the remaining rows |
| `QuotaTornReads.TornByProjectQuota` | internal/superphenix-api/internal/db/crud/quota/hierarchical.go:645-671 | a read torn by the split of a project quota has the newest revision, and the right quota if and only if both project quotas limit the same of what nothing else limits |
| `QuotaTornReads.TornByProjectDeletion` | internal/superphenix-api/internal/db/crud/quota/hierarchical.go:532-545 | a read torn by the deletion of a project quota limits to 0 what the project limited, with a revision while what follows has none |
| `QuotaSync.Targets` | internal/superphenix-api/internal/quotasync/quotasync.go:180-187 | the AZs the organization may use among the requested ones, in order, whatever the iteration order |
| `QuotaSync.FindAll` | internal/superphenix-api/internal/az/az.go:23-33 | the AZs without a whitelist or with the organization in it |
| `QuotaSync.Apply` | internal/superphenix-api/internal/quotasync/quotasync.go:110-159 | for every completion order, the AZs that failed, in order, and those among them with something to enforce |
| `QuotaSync.FailingAre` | internal/superphenix-api/internal/quotasync/quotasync.go:110-159 | the AZs that fail are those the organization may use, among the requested ones, that did not accept |
| `QuotaSync.EnforcedIff` | internal/superphenix-api/internal/quotasync/quotasync.go:110-144 | something has to be enforced if and only if the organization, the project or the AZ limits cpu, memory or disk |
| `QuotaSync.SortedUnique` | internal/superphenix-api/internal/quotasync/quotasync.go:180-187 | a set of codes has one sorted listing, so the answer is unique |
| `StringOrder.BeforeIs` | internal/superphenix-api/internal/quotasync/quotasync.go:180-187 | a string is before another if and only if it is a proper prefix of it, or smaller where they first differ |
| `QuotaSync.AnswerUnique` | internal/superphenix-api/internal/quotasync/quotasync.go:107-159 | the answer of a push does not depend on the order of the AZs nor of the pushes |
| `QuotaSync.ProjectState.Project` | internal/superphenix-api/internal/quotasync/quotasync.go:59-74 | succeeds if and only if every targeted AZ accepted (and the reactivation was written); lifts its own deactivation only then |
| `QuotaSync.ProjectState.Initialize` | internal/superphenix-api/internal/quotasync/quotasync.go:84-105 | when it fails and when it deactivates |
| `QuotaSync.InitializedActiveIff` | internal/superphenix-api/internal/quotasync/quotasync.go:76-105 | a new project is left active if and only if every AZ with something to enforce accepted |
| `QuotaSync.PushedReasons` | internal/superphenix-api/internal/quotasync/quotasync.go:59-74 | what a push leaves of the reasons of a deactivation, from the rows, the AZs and their answers |
| `QuotaSync.InitializedReasons` | internal/superphenix-api/internal/quotasync/quotasync.go:84-105 | what an initialization leaves of them |
| `QuotaSync.OnlyWholePushesReactivate` | internal/superphenix-api/internal/quotasync/quotasync.go:52-74 | in every run the deactivation is lifted only by an all-AZ push that every targeted AZ accepted |
| `QuotaSync.OtherReasonsStay` | internal/superphenix-api/internal/db/crud/project/deactivation.go:14-29 | no push touches the other reasons of a deactivation |
| `QuotaSync.Resync` | internal/superphenix-api/internal/quotasync/resync.go:94-119 | the report counts what was reached and what failed, and which early exits are errors |
| `QuotaSync.FailuresAre` | internal/superphenix-api/internal/quotasync/resync.go:105-117 | the failures counted are the listed projects whose push failed |
| `ClusterConditions.PutSays` | internal/superphenix-operator/cluster/status.go:51-64 | setting a condition changes what is said of its type only |
| `ClusterConditions.PutKinds` | internal/superphenix-operator/cluster/status.go:51-64 | the types keep their places, a new one comes last |
| `ClusterStatus.SyncIsIdempotent` | internal/superphenix-operator/cluster/status.go:79-251 | with one condition per type, a second sync with the same inputs at a later clock changes nothing |
| `ClusterStatus.RunKeepsUnique` | internal/superphenix-operator/cluster/status.go:53-64 | over every run of health checks and syncs the condition types stay unique |
| `ClusterStatus.TransitionRule` | internal/superphenix-operator/cluster/status.go:212-242 | a transition time is kept if and only if the condition says the same as before the sync and had one; otherwise it is the clock |
| `ClusterStatus.StepTime` | internal/superphenix-operator/cluster/health.go:57-63 | over a health check and its sync a transition time is kept if and only if the condition says the same after as before, and the health check wrote nothing else of it; otherwise it is the clock |
| `ClusterStatus.StandsStillIff` | internal/superphenix-operator/cluster/status.go:212-242 | over every run a transition time is at the end what it was if and only if that holds of every step |
| `ClusterStatus.ReachableFlaps` | internal/superphenix-operator/cluster/status.go:127-130 | over every run of reconciles whose health check finds something else, and which fail for a reason blamed on the connection, the condition says the same after each and its time is that of the last |
| `ClusterStatus.ReadyIff` | internal/superphenix-operator/cluster/status.go:322-397 | ready if and only if nothing failed, the cluster is reachable, its version not incompatible, and its application synced if it has one |
| `ClusterStatus.DeployedIff` | internal/superphenix-operator/cluster/status.go:170-202 | deployed if and only if nothing failed, it is not paused, the deployed version is unknown or wanted, and the application is synced or was deployed and says nothing |
| `ClusterStatus.ExplainedSays` | internal/superphenix-operator/cluster/status.go:109-168 | what each condition says after the error, the application and the pause, the pause never being withdrawn |
| `ClusterStatus.ReadyMeansNoFailure` | internal/superphenix-operator/cluster/cluster_controller.go:278-290 | the guard of the periodic sync never holds it back |
| `ClusterSync.Cluster.SetCondition` | internal/superphenix-operator/cluster/status.go:53-64 | the loop rewrites the first condition of the type only when it says something else, or appends |
| `ClusterSync.Cluster.ApplyApplication` | internal/superphenix-operator/cluster/status.go:255-318 | the condition and the phase an application is mapped to |
| `ClusterSync.Cluster.UpdateReady` | internal/superphenix-operator/cluster/status.go:322-397 | the aggregated condition |
| `ClusterSync.Cluster.UpdateApps` | internal/superphenix-operator/cluster/status.go:445-469 | the listed applications but the root one, the last of a name winning; kept when listing fails |
| `ClusterSync.Cluster.Stamp` | internal/superphenix-operator/cluster/status.go:211-242 | the loop stamps each condition from the ones before the sync |
| `ClusterSync.Cluster.SyncStatus` | internal/superphenix-operator/cluster/status.go:79-242 | the whole status after a sync, field by field |
| `ClusterSync.Cluster.RecordHealth` | internal/superphenix-operator/cluster/health.go:133-141 | what a health check writes of the cluster being reachable, on the list that the sync starts from |
| `ClusterSync.Cluster.Reconcile` | internal/superphenix-operator/cluster/cluster_controller.go:218-276 | the whole status after a health check and a sync |
| `ClusterOutcomes.ContainsIff` | internal/superphenix-operator/cluster/status.go:119-133 | a failure contains a text if and only if it is that text with something before and after it |
| `ClusterOutcomes.FailureReaches` | internal/superphenix-operator/cluster/status.go:115-153 | which failures make a cluster unreachable, by their text, and with what reason; any other leaves what was said |
| `ClusterOutcomes.FailureReadies` | internal/superphenix-operator/cluster/status.go:115-153 | a failure makes a cluster not ready, with the reason of the connection, of the version or of its text, in that order |
| `ClusterOutcomes.ApplicationSays` | internal/superphenix-operator/cluster/status.go:255-318 | synced if and only if the Application is synced and neither degraded, suspended nor missing; unknown, or not synced, and why, from its sync and health alone |
| `ClusterOutcomes.VersionAndPauseSay` | internal/superphenix-operator/cluster/status.go:160-168 | what is said of the version for each outcome of its check, and of a pause |
| `ClusterOutcomes.SuccessReadies` | internal/superphenix-operator/cluster/status.go:322-397 | without a failure, readiness is the first of the connection, the version and the Application that is wrong |
| `ClusterOutcomes.ReadyFromInputs` | internal/superphenix-operator/cluster/status.go:322-397 | ready if and only if nothing failed, the cluster was reachable, the version is not incompatible and the Application is in order, all from the inputs of the sync |
| `ClusterOutcomes.PhaseIs` | internal/superphenix-operator/cluster/status.go:170-202 | the phase for every failure, pause, sync, health, version and previous phase |
| `ClusterOutcomes.AppsAre` | internal/superphenix-operator/cluster/status.go:445-469 | the entries are the last ones listed under each name, but those of the root and without a name |
| `ClusterOutcomes.FieldsAre` | internal/superphenix-operator/cluster/status.go:79-242 | what was not observed stays as it was, and every condition carries the generation |
| `PeriodicSync.SyncInProgress` | internal/superphenix-operator/cluster/sub_applications.go:141-166 | whether something runs, and the scan for its oldest start |
| `PeriodicSync.OldestIsMinimumIff` | internal/superphenix-operator/cluster/sub_applications.go:149-165 | the scan finds the oldest start if and only if a zero start, if there is one, is also the last |
| `PeriodicSync.RestartsWhenOverdue` | internal/superphenix-operator/cluster/sub_applications.go:37-72 | a restart only when some operation has run for the timeout, a missing start counting as now; and always then, if no start is the zero time |
| `PeriodicSync.SyncsWhenIdle` | internal/superphenix-operator/cluster/sub_applications.go:37-51 | a run triggers without a restart if and only if it is due and no listed Application runs an operation |
| `PeriodicSync.RestartsIff` | internal/superphenix-operator/cluster/sub_applications.go:52-72 | it restarts if and only if it is due, some operation has run for the timeout and the Applications can be listed again, no start being the zero time |
| `PeriodicSync.TriggersInOrder` | internal/superphenix-operator/cluster/sub_applications.go:88-121 | forced triggers are one for each Application, in order |
| `PeriodicSync.RootListedTwice` | internal/superphenix-operator/cluster/sub_applications.go:126-135 | the root Application being listed twice makes no difference to the decision, its second reading showing the same operation, a later one or none |
| `PeriodicSync.RootAbortedTwice` | internal/superphenix-operator/cluster/sub_applications.go:173-207 | nor does it to what an abort sends |
| `PeriodicSync.WhatIsSent` | internal/superphenix-operator/cluster/sub_applications.go:88-121 | every running Application is terminated in a restart and only then, triggers are forced in a restart and only then, and otherwise spare the Applications read as running and no other |
| `PeriodicSync.AbortsFirst` | internal/superphenix-operator/cluster/sub_applications.go:53-71 | every abort comes before every trigger |
| `PeriodicSync.AbortsHit` | internal/superphenix-operator/cluster/sub_applications.go:173-207 | an abort hits every running Application, and clears the operation of those whose termination was accepted |
| `PeriodicSync.Syncer.RunPeriodicSync` | internal/superphenix-operator/cluster/sub_applications.go:37-72 | what is decided and what is sent |
| `PeriodicSync.Syncer.AbortInProgressSyncs` | internal/superphenix-operator/cluster/sub_applications.go:173-207 | the loop over the listed Applications |
| `PeriodicSync.Syncer.Finish` | internal/superphenix-operator/cluster/cluster_controller.go:272-299 | nothing is sent or recorded for a paused or manual cluster, one whose status was not patched, or a failed one left ready; the sync time is recorded only after a triggering run whose second patch is written |
| `PeriodicSync.RecordedApart` | internal/superphenix-operator/cluster/sub_applications.go:40-44 | over every run of reconciles recorded times are apart by the whole seconds of the period |
| `PeriodicSync.TruncatedIs` | internal/superphenix-operator/cluster/cluster_controller.go:292-297 | a stored time is the last whole second, in nanoseconds, up to it |
| `PeriodicSync.AlwaysApartIff` | internal/superphenix-operator/cluster/sub_applications.go:40-44 | they are a period apart in every run if and only if the period is in whole seconds |
| `RelationTuples.TupleStore.Write` | pkg/permify-wrapper/pkg/data/generic.go:16-40 | the batches that worked are written, the answer is that of the last one, and none is an error |
| `RelationTuples.TrustworthyIff` | pkg/permify-wrapper/pkg/data/generic.go:25-39 | a success means that everything was written if and only if every tuple is also in the last batch; so for one batch, and for no longer list without repeated tuples |
| `RelationTuples.TupleStore.UpdateOrganizationGroup` | pkg/permify-wrapper/pkg/wrapper.go:75-104 | the tuples of the group on the organization are replaced; without any permission set for one it deletes and then fails |
| `RelationTuples.NoGrantsIff` | pkg/permify-wrapper/pkg/wrapper.go:91-101 | nothing is left to write if and only if no permission set is for that type of entity |
| `RelationTuples.TupleStore.UpdateProjectGroup` | pkg/permify-wrapper/pkg/wrapper.go:106-136 | the tuples of the group on the project are replaced |
| `RelationTuples.TupleStore.UpdateGroupPermissions` | pkg/permify-wrapper/pkg/wrapper.go:192-223 | the tuples of the group are replaced on every entity |
| `RelationTuples.TupleStore.UpdateUserGroups` | pkg/permify-wrapper/pkg/wrapper.go:138-163 | the memberships of the user are replaced, up to the first failure |
| `RelationTuples.TupleStore.DeleteProject` | pkg/permify-wrapper/pkg/wrapper.go:169-180 | exactly the tuples on the project are gone |
| `RelationTuples.TupleStore.DeleteUser` | pkg/permify-wrapper/pkg/wrapper.go:182-189 | the tuples of the user are gone |
| `RelationTuples.BulkDeclares` | pkg/permify-wrapper/pkg/wrapper.go:192-223 | the bulk update leaves exactly the declared tuples for the group and touches no other subject |
| `RelationTuples.EachIsBulkIff` | pkg/permify-wrapper/pkg/wrapper.go:75-223 | the updates of each entity, in any order, do what the bulk update does if and only if the group has no tuple on another entity |
| `RelationTuples.UserGroupsDeclare` | pkg/permify-wrapper/pkg/wrapper.go:138-163 | updating a user leaves exactly the declared memberships for the user and touches no other subject |
| `RelationTuples.GroupAllows` | pkg/permify-wrapper/pkg/wrapper.go:192-223 | after the bulk update the assignees of the group are granted exactly the permission sets declared, on the organization or on every project, and users belong to the groups they did |
| `RelationTuples.UserBelongs` | pkg/permify-wrapper/pkg/wrapper.go:138-163 | after the update of a user, the user is an assignee of exactly the groups declared, and groups are granted what they were |
| `RelationTuples.DeclaredIsHeld` | pkg/permify-wrapper/pkg/wrapper.go:138-223 | after both, the user holds every permission set declared for one of those groups: memberships are written in the relation that grants name |
| `AuditRecord.Record.BeginFor` | internal/superphenix-api/pkg/audit/record.go:62-90 | stores the event once, for a valid user, and stays unbegun when the write fails |
| `AuditRecord.Record.Complete` | internal/superphenix-api/pkg/audit/record.go:141-173 | finalizes the stored row, or inserts the event in its final state |
| `AuditRecord.OneRowPerRequest` | internal/superphenix-api/pkg/audit/record.go:62-173 | whatever the calls and failing writes: at most one row, none without a user, and a final one failed if and only if the code is at least 400 or a failure was reported |
| `AuditRecord.FinalRow` | internal/superphenix-api/internal/db/crud/audit-event/auditEvent.go:81-98 | the final row carries the organization and the project reported last |
| `AuditRecord.FinalIdentity` | internal/superphenix-api/pkg/audit/record.go:62-173 | the final row is for the user of the stored row, or the last one authenticated, with the code and the time of the end |
| `AuditRecord.AttemptedRow` | internal/superphenix-api/pkg/audit/record.go:62-90 | the row stored as attempted holds what had been reported by then |
| `AuditRecord.FinalResourceIff` | internal/superphenix-api/internal/db/crud/audit-event/auditEvent.go:92-95 | the final row carries the resource reported last, if and only if it was not dropped after being stored |
| `AuditRecord.DroppedResourceStays` | internal/superphenix-api/pkg/services/controller/utils/utils.go:190-190 | a creation rolled back on a route whose URL carries a resource: the row keeps the resource of the URL although none is reported any more |
| `AuditRecord.DroppedResourceLeavesNone` | internal/superphenix-api/pkg/audit/record.go:101-108 | without a resource in the URL the same creation leaves none |

## Left out

Parameters and abstractions:

- `uuid.UUID`, `uuid.uuid5`, Kubernetes quantity strings and version constraints are parameters: a partial function, a partial function to an exact number, and the outcome of a comparison.
- The opening of a tag is a parameter of the resolver, with the only property it relies on (one bracket, at its start); `OPEN` is the one of the plugin.
- The plugin resolves each line of its input; the loop over lines and Python's recursion limit are not modelled.
- Quota quantities are kept in parsed form in `QuotaHierarchy` and `QuotaWrites`: formatting them back to strings (`Resources`), and that this parses to the same quantities, is not modelled, nor are the texts of errors.
- Grouping rows by project in Go maps (`projectAllocations`), and `Max` and `Only`, are functions on values; the transactions of an organization are one after the other, as its row lock makes them, and the AZ codes configured are distinct.
- Resource names, Kubernetes keys, condition types, phases and reasons are datatypes with the values the code tells apart, and one more constructor for the rest.
- Calls to Kubernetes, Argo CD, Permify and the controllers are state reads and writes with an outcome given from outside; a write that fails stores nothing.

Behaviour:

- Quantities.Exceeds: the text of the refusal is not modelled, the resource it names is.
- A failing write is one that has no effect: an effect whose answer is lost is the effect, in the runs of `QuotaDelivery`, where no answer is needed.
- Anything else that writes a ResourceQuota (the charts of an AZ, a backup being restored, an administrator).
- GitOps taking a ResourceQuota over, or giving it back, during a run: which AZs it manages is fixed.
- Pushing every project of an organization, which pushes them in turn as the re-sync does.
- The deletion of an organization with all its rows, and the garbage collection of its ResourceQuotas.
- Labels of a ResourceQuota, the creation of its namespace, and the bound of 128 resources. Applying limits is one step, as its update carries the version that was read and is run again on a conflict; removing a ResourceQuota is two.
- The status patch of a cluster: `SyncStatus` gives the status that is patched. Times are exact there, while the API keeps whole seconds.
- A forced trigger starting a new operation in Argo CD, which depends on how fresh the cache is.
- The application map entries are given: how one is built from an Application is field by field.
- PXE setup, kubeconfig merging, telemetry, configuration loading, name generation and finalizers: mostly input and output, or facts about one branch.
