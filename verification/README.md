# OpenTEA: verified models of its state-bearing cores

OpenTEA serves release transparency data (products, releases, collections of artifacts, lifecycle
documents) and lets publishers sign and publish new collection versions. This project models the
parts of the server whose correctness does not show in any one function, and proves what they
promise over all inputs, all runs and all interleavings. `dafny verify dfyconfig.toml` checks it.

| files | what they model |
|---|---|
| `Draft`, `DraftRuns`, `DraftLock`, `DraftSigning`, `DraftRules`, `DraftWitness`, `DraftRepo` | the signing protocol: put, approve or reject, prepare, peek, commit, cancel, delete |
| `ETag`, `ConditionalGet`, `ReadHandlers` | entity tags, revision counters and conditional reads while writers interleave |
| `Authz`, `AuthzStore`, `AuthzEffect` | candidate rules, the two narrowing passes, the policy they decide, and what bears on it |
| `Keyset`, `Pagination`, `PageWalk` | keyset pages filtered by authorization after fetching |
| `BundleImport`, `BundleOrder`, `BundleManifest`, `BundleStore`, `BundleFiles`, `BundleExport`, `BundleRestore` | bundle import, export, the standalone checker, and restoring an export into an empty store |
| `LoginLimiter`, `LoginHistory`, `Approval`, `Accept` | the login limiter, the business-approval quorum, format negotiation |
| `Basics`, `Schema` | optional columns, results, time kept to whole seconds; identities and rows shared by several parts |

How the source is represented:

- An operation that runs in one transaction is one step, because the database is opened with a
  single connection (`internal/db/db.go:61`). Each clock reading an operation takes is its own
  argument; a run only requires that readings never go back. Operations that are not one transaction
  (cancel, the peek and commit of the commit handler, every statement of a peek and of a read
  handler) are separate steps with anything in between.
- Instants are integer nanoseconds. Writing one to a column and reading it back rounds down to a
  second (`internal/repo/timeutil.go:15-28`).
- Objects that rewrite tables are classes; each method is proved to take the tables to what a step
  function says. The lemmas over runs are about those step functions.
- A bundle entry's content is what the import files it under: a product release names the bundle's
  product and a distribution the component release it is listed with (`internal/bundle/import.go:243-346`).
- Constraints that live in the schema (primary keys, foreign keys, CHECKs) are modelled, since
  several outcomes depend on them.

## What turned out not to hold

Each has a lemma that shows it and a lemma that says exactly when the property does hold.

- What is published is what was signed if and only if everything the handler's peek saw is still so
  when its commit runs: the date the lock fixed, the reason, the artifact list, each listed artifact
  and the next version number (`SignedIsPublished`, `EvidenceAttestsPublication`, for every peek and
  later commit). None of these is protected in between: the lock does not cover artifact files, a
  second prepare under the held lock replaces its date, and a cancel lets the content be replaced.
  Runs in which the commit succeeds all the same: `UploadBetweenPeekAndCommit`,
  `PrepareBetweenPeekAndCommit`, `ReplacedBetweenPeekAndCommit`.
- A draft that lists an artifact twice, or has an update reason the collection table does not admit,
  can be approved, prepared and peeked at but never committed (`CommitPublishesWouldBe`,
  `PreparedButNeverCommitted`, for every such list and every such reason).
- The body a client keeps on a 304 is current when the request read the first part of its tag, not
  necessarily at the last part: there it is current if and only if reading the whole tag at that
  instant would give the same tag (`MayBeStaleAtTheLastRead`, `CurrentAtTheLastReadIff`).
- Releases without a release date are lost when a listing sorted by that date goes past its first
  batch: a cursor comparison with NULL is never true. A full walk of fixed data returns every
  authorized row if and only if each authorized undated row is in the first batch and has fewer than
  a page of authorized rows before it (`UndatedReleasesAreLost`, `FixedWalkExactly`).
- Importing the same bundle twice succeeds if and only if none of its dates has a fraction of a
  second (`SecondImport`). Two bundles that import alone and in one order import in the other order
  if and only if nothing the first brings that the second has too carries a fraction of a second
  (`ImportsCommute`, `OrderMattersForFractions`).
- An export without dangling links need not import into an empty store: a link may pin a release of
  another component than the one it names (`internal/repo/productrelease.go:299-316` does not
  compare them), and that component is not exported; and a listed artifact may name distributions of
  releases that are not pinned. An export imports into an empty store if and only if neither is so
  (`ExportRestoresIff`, `RestoresIffClosed`, `ForeignPinDoesNotImport`).
- An archive entry named exactly `files/` is always reported by the checker and never seen by the
  importer (`CheckerAgreesWithImport`, `BareEntryIsIgnored`).
- Recording an approval decision opens no transaction of its own. The shipped form handler wraps it
  in one (`internal/openteapublisher/approvals.go:127-137`); for a caller that does not, a rejected
  request can become approved, and a closed request stays closed if and only if no call under way
  has something left to write (`RejectedCanBecomeApproved`, `ClosedForGoodIff`).
- A request may be stored with a negative number of required approvals (the form refuses it, the
  repository does not); the quorum law holds of all its runs if and only if it needs at least one
  (`QuorumHoldsIff`, `NoQuorumNeedsNobody`).
- The limiter reads the clock before it takes its lock, so readings can arrive out of order, and
  then a call can be let through over the limit (`OutOfOrderReadings`). It is, if and only if at
  least limit allowed calls lie in its window and calls in between with newer readings have made the
  table forget so many of them that fewer than limit are left (`OverTheLimitIff`,
  `ForgottenByNewer`).

Where code and comments disagree the code is followed: a comment says that collection versions are
deleted with their release (`internal/repo/collection.go:287-289`), but no statement or foreign key
does that, so stored versions are permanent here.

## Model

| member | source | states |
|---|---|---|
| `DraftRuns.CommitIsAuthorized` | internal/repo/collectiondraft.go:397-466 | in every run, each successful commit rests on a put, then an approval of exactly that content by another actor and (both known) another credential, still unexpired at the commit, then a prepare whose lock is still held, in that order |
| `DraftRuns.PublishedAsApproved` | internal/repo/collectiondraft.go:609-687 | the new version's stored references and reason are those of that put, its date is the one the prepare fixed, and its number was free |
| `DraftRuns.CommitsInject` | internal/repo/collectiondraft.go:609-687 | two commits never share a put, an approval or a lock; a later commit's whole chain comes after the earlier commit of that owner |
| `DraftRuns.InvStep` | internal/repo/collectiondraft.go:120-129 | every step keeps: a held lock implies an approval at the current revision, lock and lock date come together, dates are whole seconds, listed artifacts exist, evidence names stored versions |
| `DraftRuns.InvAt` | internal/repo/collectiondraft.go:191-687 | that invariant in every state of every run |
| `DraftRuns.RefusedStepIsNoOp` | internal/repo/repo.go:61-80 | a step that reports an error leaves every table as it was |
| `DraftRuns.TablesGrow` | internal/repo/collection.go:90-135 | no step removes an artifact or a version, or changes a stored version |
| `DraftRuns.NoDecisionUnderLock` | internal/repo/collectiondraft.go:397-405 | between a prepare and any instant its lock is still held, every decision is refused as locked |
| `DraftLock.LockWindow` | internal/repo/collectiondraft.go:543-557 | the lock is held exactly until floor-to-second of its expiry: more than the TTL less a second, at most the TTL |
| `DraftLock.LockFreeze` | internal/repo/collectiondraft.go:495-568 | until the lock ends, with no re-prepare, cancel, delete, new version or upload: every put and decision is refused, and a peek answers exactly what the prepare answered, or that the approval has expired |
| `DraftLock.DefensiveBranchesUnreachable` | internal/repo/collectiondraft.go:506-659 | the version-race, date-mismatch and lock-without-date errors occur in no run |
| `DraftLock.CommitPublishesWouldBe` | internal/repo/collectiondraft.go:609-687 | a commit succeeds iff lock and approval are current, the release exists, the reason is admitted, no artifact repeats and the certificate is fresh; it answers and stores the would-be collection, which reads back equal field for field; a failed one changes nothing |
| `DraftWitness.PreparedButNeverCommitted` | internal/db/migrations/0007_publisher.sql:41-78 | for every list that repeats an artifact, and every update reason the collection table does not admit: a run in which the draft is put, approved, prepared and peeked at, after which every commit fails |
| `DraftSigning.SignedIsPublished` | internal/publisher/collectiondraft.go:229-280 | for every peek, its statements at any instants, and every later commit of the release, whatever happened in between: the published value equals the peeked one iff lock date, reason, artifact list, each listed artifact and next version number are at the commit what each was when it was read |
| `DraftSigning.EvidenceAttestsPublication` | internal/publisher/collectiondraft.go:242-280 | the evidence stored with the new version attests its digest iff that same condition holds |
| `DraftSigning.PeekedIsPrepared` | internal/repo/collectiondraft.go:566-568 | while the lock is undisturbed, a peek whose statements run at any instants answers what the prepare answered |
| `DraftSigning.OneInstantIsPeek` | internal/repo/collectiondraft.go:447-533 | a peek whose statements see one state answers that state's would-be collection |
| `DraftRules.PutRefusals` | internal/repo/collectiondraft.go:191-220 | on the draft's columns, which error a put gives and when it gives none: missing release or artifact, lock not run out, revision not the expected one, in that order |
| `DraftRules.PutResets` | internal/repo/collectiondraft.go:221-257 | a put that goes through raises the revision by one, sets the expiry and takes back decision and lock |
| `DraftRules.DecisionRefusals` | internal/repo/collectiondraft.go:397-418 | on the columns, which error a decision gives: no draft, lock not run out, the drafter, the drafter's credential |
| `DraftRules.DecisionIsStored` | internal/repo/collectiondraft.go:419-432 | an approval is stored as Approved with its expiry and a rejection as Rejected without one, by whom and at which revision; content and lock stay |
| `DraftRules.PrepareRefusals` | internal/repo/collectiondraft.go:447-557 | on the columns, a prepare succeeds iff the draft exists, is approved at its own revision with an expiry after the instant it is looked at, and every listed artifact exists; otherwise which error |
| `DraftRules.PrepareIsApproved` | internal/repo/collectiondraft.go:447-466 | in every run each successful prepare rests on an earlier approval of that content by another actor whose floored expiry is after the prepare's first reading |
| `DraftRules.CancelRefusals` | internal/repo/collectiondraft.go:573-580 | a cancel goes on iff a lock is held; otherwise no draft or no lock |
| `DraftRules.EvidenceIsPermanent` | internal/repo/evidencebundle.go:69-119 | no step changes or removes evidence once bound to a certificate |
| `DraftWitness.UploadBetweenPeekAndCommit` | internal/repo/artifact.go:557-596 | a run with an upload between a peek and a commit that both succeed with different answers |
| `DraftWitness.PrepareBetweenPeekAndCommit` | internal/repo/collectiondraft.go:543-557 | a run with a second prepare in between, which is not refused and replaces the signed date |
| `DraftWitness.ReplacedBetweenPeekAndCommit` | internal/repo/collectiondraft.go:573-583 | a run with cancel, put, approve and prepare in between, which replaces the content |
| `Draft.NextVersionIsFresh` | internal/repo/collectiondraft.go:481-488 | the next version number of a uuid is never taken |
| `DraftRepo.Repo.PutCollectionDraft` | internal/repo/collectiondraft.go:191-257 | the tables and the answer are those of the protocol's Put, every error case included |
| `DraftRepo.Repo.DecideCollectionDraft` | internal/repo/collectiondraft.go:397-432 | the same for an approve or reject decision |
| `DraftRepo.Repo.BuildWouldBeCollection` | internal/repo/collectiondraft.go:447-533 | the would-be collection, or the first check that fails |
| `DraftRepo.Repo.PrepareCollectionCommit` | internal/repo/collectiondraft.go:543-557 | takes the lock and fixes the date, or changes nothing |
| `DraftSigning.PeekCollectionDraftCommit` | internal/repo/collectiondraft.go:566-568 | draft row, list, each artifact and highest version read one after the other outside a transaction, or the first check that fails |
| `DraftRepo.Repo.ReadLockForCancel` | internal/repo/collectiondraft.go:573-580 | cancel's read: no draft, no held lock, or go on |
| `DraftRepo.Repo.ClearLock` | internal/repo/collectiondraft.go:581-583 | cancel's separate write, whatever happened in between |
| `DraftRepo.Repo.DeleteCollectionDraft` | internal/repo/collectiondraft.go:366-379 | removes the draft with its artifact list, or reports that there is none |
| `DraftRepo.Repo.CreateCollectionForRelease` | internal/repo/collection.go:90-135 | publishes the next version with the given date, and answers what reads back |
| `DraftRepo.Repo.CreateEvidenceBundle` | internal/repo/evidencebundle.go:69-119 | a fingerprint is bound once; only identical evidence may be submitted again |
| `DraftRepo.Repo.CommitCollectionDraft` | internal/repo/collectiondraft.go:609-687 | all of it or nothing: the transaction equals the protocol's Commit |
| `DraftRepo.DiffAgainstCurrent` | internal/repo/collectiondraft.go:276-310 | applying the difference to the live artifact uuids gives the draft's, with nothing listed needlessly |
| `DraftRepo.NextCollectionVersion` | internal/repo/collection.go:92-99 | the scan computes one more than the largest stored version, or 1 |
| `DraftRepo.RequireArtifactsExist` | internal/repo/collectiondraft.go:156-168 | accepts iff every reference names a stored artifact revision |
| `DraftRepo.InsertCollectionArtifacts` | internal/repo/collection.go:119-126 | the row inserts go through iff no reference repeats and all exist |
| `ETag.BuildETagInjective` | internal/httpx/etag.go:15-17 | parts without the separator can be read back from the tag |
| `ETag.SplitJoin` | internal/httpx/etag.go:15-17 | splitting a joined list gives the list |
| `ETag.ItoaInjective` | internal/api/collection.go:25-31 | distinct numbers print differently, negative ones included |
| `ETag.MatchesIfNoneMatch` | internal/httpx/etag.go:29-44 | true iff some validator on some header line is the wildcard or equals the tag, ignoring weakness |
| `ETag.ReplayMatchesIffEqual` | internal/httpx/etag.go:29-44 | a replayed tag matches iff the current tag is the same |
| `ETag.ListMatchesIff` | internal/httpx/etag.go:29-44 | whatever list of tags and wildcards a client sends, weak or strong, spaced by blanks and tabs, on any number of lines: it matches iff one of them is the wildcard or the current tag |
| `ConditionalGet.WriteEffect` | internal/repo/artifact.go:557-641 | every write leaves an artifact, release or lifecycle document exactly as it was or strictly raises its counter; versions never change; references stay intact |
| `ConditionalGet.WritesLand` | internal/repo/artifact.go:557-596 | a write changes the tables iff its target is there, its identity is free and what it refers to exists |
| `ConditionalGet.Grows` | internal/repo/distribution.go:20-166 | over any history no counter goes down and nothing disappears |
| `ConditionalGet.ArtifactConstant` | internal/repo/collection.go:452-474 | equal counters at two instants mean the artifact was the same at every instant between |
| `ConditionalGet.ReleaseConstant` | internal/repo/distribution.go:20-166 | the same for component releases |
| `ConditionalGet.LifecycleConstant` | internal/repo/cle.go:286-293 | the same for lifecycle documents |
| `ConditionalGet.LatestBetween` | internal/repo/collection.go:261-272 | a version that is the latest at two instants is the latest in between |
| `ConditionalGet.TagInjective` | internal/api/cachepolicy.go:106-116 | at one endpoint, equal tags mean equal identity, version, counters and caller, although the numbers of counters may differ |
| `ConditionalGet.CollectionHeldIsLive` | internal/repo/collection.go:400-474 | equal version and counter vectors in two tag reads mean the body read in between, piece by piece, is the live collection |
| `ConditionalGet.NotModifiedIsSound` | internal/api/componentrelease.go:38-103 | with any non-deleting writes between any two reads, a 304 is given only if the body held is the release with its latest collection as of that request's first read |
| `ConditionalGet.CollectionNotModifiedIsSound` | internal/api/collection.go:47-158 | the same for collection responses, at any instant of the tag's reads; a latest one is still the latest when the request began |
| `ConditionalGet.CurrentAtTheLastReadIff` | internal/api/componentrelease.go:38-77 | on a 304 the body is also current at the last tag read iff the tag read there in one go would be the same |
| `ConditionalGet.MayBeStaleAtTheLastRead` | internal/api/componentrelease.go:38-77 | a write between the first and the last tag read gets a 304 for a body no longer current |
| `ConditionalGet.SizeOfUpdate` | internal/repo/distribution.go:138-166 | an upload adds one checksum to the rendered release, so a change of a release can never be undone by later writes |
| `ReadHandlers.GetComponentReleaseWithCollection` | internal/api/componentrelease.go:38-103 | 404 iff release or collection is missing at its read; the tag is the one those three reads give; 304 iff it matches; otherwise the body was read within the request |
| `ReadHandlers.LatestCollection` | internal/api/collection.go:47-92 | the same for a release's latest collection |
| `ReadHandlers.GetCollectionByVersion` | internal/api/collection.go:102-158 | the same for one version |
| `ReadHandlers.RevalidateRelease` | internal/api/componentrelease.go:38-103 | a client that fetches and later sends its tag back gets 304 only if what it holds is what the later request found when it began |
| `ReadHandlers.RevalidateCollection` | internal/api/collection.go:47-158 | the same for collections, of a given version or the latest |
| `ReadHandlers.LatestCollectionVersion` | internal/repo/collection.go:261-272 | the scan finds the largest version of that kind, or that there is none |
| `ReadHandlers.CollectionArtifactRevisions` | internal/repo/collection.go:452-474 | the counters in reference order |
| `ReadHandlers.ReadArtifact` | internal/repo/artifact.go:322-420 | row, formats and each format's checksums, each as of some instant of the read |
| `ReadHandlers.ReadCollection` | internal/repo/collection.go:309-435 | row, references and each artifact, each as of some instant of the read |
| `Authz.Decide` | internal/authz/engine.go:66-84 | allowed iff rules apply and none of the lexicographically most specific denies; it depends on the set of candidates only; the rule it names is most specific and has the verdict reported |
| `Authz.NarrowingIsLexicographic` | internal/authz/engine.go:88-120 | narrowing by scope and then by subject keeps exactly the maxima of one combined order |
| `Authz.NarrowestByResourceScope` | internal/authz/engine.go:88-102 | keeps exactly the candidates of the largest scope tier |
| `Authz.NarrowestBySubject` | internal/authz/engine.go:106-120 | keeps exactly the candidates of the largest subject rank |
| `Authz.AddedDenyNeverAllows` | internal/authz/engine.go:66-84 | adding a deny never turns a refusal into permission |
| `Authz.AddedAllowMustBeNarrower` | internal/authz/engine.go:66-84 | adding an allow does so iff it is strictly narrower than every rule already there |
| `AuthzStore.Authorize` | internal/repo/authzstore.go:30-249 | engine over store: allowed iff a rule in force covers the resource and every covering deny is beaten by a narrower covering rule; an error iff something it must look up is missing |
| `AuthzStore.CandidateRules` | internal/repo/authzstore.go:30-47 | the recursive expansion yields, as a set, exactly the active, in-window, subject-matching rules whose scope contains the resource |
| `AuthzStore.CandidateRulesAtScope` | internal/repo/authzstore.go:317-376 | one query: exactly the applicable rules of entitlements at that scope |
| `AuthzStore.CandidateRulesForComponent` | internal/repo/authzstore.go:56-66 | the rules at every scope that contains the component |
| `AuthzStore.CandidateRulesForComponentRelease` | internal/repo/authzstore.go:74-93 | the rules at every scope that contains the component release; missing iff it does not exist |
| `AuthzStore.CandidateRulesForProduct` | internal/repo/authzstore.go:97-123 | the rules at every scope that contains the product, groups included |
| `AuthzStore.CandidateRulesForRelease` | internal/repo/authzstore.go:129-161 | the rules at every scope that contains the product release |
| `AuthzStore.CandidateRulesForCollection` | internal/repo/authzstore.go:172-206 | the rules at every scope that contains the collection through its owner |
| `AuthzStore.CandidateRulesForArtifact` | internal/repo/authzstore.go:216-249 | the rules at every scope that contains the artifact through any reachable collection, or through the one named |
| `AuthzStore.ListGroupsContaining` | internal/repo/authzstore.go:274-310 | exactly the groups that have the uuid as a member |
| `AuthzStore.ListCollectionsContainingArtifact` | internal/repo/authzstore.go:254-270 | exactly the collections that reference the artifact |
| `AuthzStore.AllowedIsPolicy` | internal/authz/engine.go:66-133 | the policy over candidates equals the one read directly off the entitlement table |
| `AuthzEffect.IdleEntitlementIsIgnored` | internal/repo/authzstore.go:317-376 | taking away an entitlement of another principal, for the signed-in when nobody is, inactive, or out of its window at the query's second changes neither answer nor error |
| `AuthzEffect.IdleRuleIsIgnored` | internal/repo/authzstore.go:317-376 | nor does taking away a rule of another capability or artifact type, or of a template revision no entitlement has |
| `AuthzEffect.LoneAllow` | internal/repo/authzstore.go:317-376 | a single allow permits iff it bears on the query on those columns and its scope contains the resource |
| `AuthzEffect.DenyAgainstAllow` | internal/authz/engine.go:66-133 | an allow prevails over a deny iff its scope is of a narrower kind, or neither is and its subject is narrower |
| `Keyset.SelectedIsAfter` | internal/repo/pagination.go:27-45 | the cursor's WHERE clause selects exactly the rows after it in listing order that are not NULL |
| `Keyset.SortedUnique` | internal/repo/pagination.go:39-45 | a set of rows has one listing |
| `Pagination.Fetch` | internal/repo/pagination.go:27-45 | the first rows the cursor admits, in order; what it leaves out is beyond a full batch |
| `Pagination.FilterAuthorized` | internal/api/pagination.go:135-175 | terminates; on a table that changes between its fetches the page is ordered, authorized, after the cursor, and misses no authorized row present throughout except beyond a full page; hasNext only if one more authorized row exists |
| `Pagination.RemainingShrinks` | internal/api/pagination.go:135-175 | moving the cursor strictly shrinks the rows still ahead, so the batch loop ends |
| `PageWalk.Walk` | internal/api/product.go:143-165 | following tokens with any page sizes while rows come and go between any two fetches: no row twice, every authorized row with a sort value that stayed is returned, NULL rows only on the first page |
| `PageWalk.FixedPage` | internal/api/pagination.go:135-175 | on fixed data without NULLs after the cursor a page is exactly the first pageSize authorized rows after it, and hasNext iff one more exists |
| `PageWalk.FixedWalkExactly` | internal/api/pagination.go:135-175 | on fixed data the pages concatenate to the authorized listing iff every authorized NULL row is in the first batch with fewer than a page of authorized rows before it |
| `PageWalk.FixedWalk` | internal/api/pagination.go:135-175 | of fixed data a walk returns every authorized row with a value, and of the NULL ones exactly those on the first page |
| `PageWalk.NoUuidTwice` | internal/api/product.go:143-165 | with sort values that never change no uuid is returned twice |
| `PageWalk.NullRowServed` | internal/api/sortvalue.go:24-50 | a NULL row is served iff it is in the first batch and fewer than pageSize authorized rows come before it |
| `PageWalk.UndatedReleasesAreLost` | internal/api/sortvalue.go:38-50 | two undated releases, one to a page: the whole walk never returns the second |
| `BundleImport.ConflictsIffMeaningDiffers` | internal/repo/artifact.go:210-247 | the field-by-field conflict checks of all entities accept exactly equal meaning: lists as sets, locations, cached names and media types ignored |
| `BundleImport.ConflictsAre` | internal/repo/componentrelease.go:141-164 | for products, components, releases, distributions, links, collections, support definitions and blobs: exactly which fields make a conflict, lists when some element is in only one of them |
| `BundleImport.ArtifactConflictsAre` | internal/repo/artifact.go:210-247 | the same for artifacts |
| `BundleImport.EventConflictsAre` | internal/repo/cle.go:93-187 | the same for lifecycle events |
| `BundleImport.SetEqualIsEquality` | internal/repo/identity.go:63-81 | the list comparison is equality of sets |
| `BundleImport.StoredMeaning` | internal/repo/timeutil.go:15-28 | storing keeps the meaning iff no date has a fraction |
| `BundleImport.ImportIsNonDestructive` | internal/repo/collection.go:155-221 | a successful import keeps every row as it was and adds exactly the imported identities |
| `BundleImport.ImportKeepsSound` | internal/repo/componentrelease.go:85-120 | dates stay whole seconds, and no uuid names a release of both kinds |
| `BundleImport.ReleaseKindsExclude` | internal/repo/componentrelease.go:85-120 | so no uuid is both a product release's and a component release's |
| `BundleImport.ImportKeepsReferences` | internal/bundle/import.go:209-346 | after an import every parent, link end, pin, owning release, listed distribution and listed artifact a row names is there |
| `BundleImport.ImportKeepsConstraints` | internal/db/migrations/0001_init.sql:56-185 | import keeps every row within its CHECKs and keys: admitted kinds, reasons and algorithms, no artifact or distribution listed twice, compliance documents only on components and their releases |
| `BundleImport.SecondImport` | internal/bundle/import.go:158-165 | importing again succeeds iff no date has a fraction, and then creates and changes nothing |
| `BundleImport.RowOfItem` | internal/bundle/import.go:209-346 | after an import the row of every item means what storing the item gives |
| `BundleOrder.ImportsCommute` | internal/bundle/import.go:209-346 | two bundles that import alone and in one order import in the other order iff no item of the first whose identity the second has too carries a fractional date, and then with the same meaning |
| `BundleOrder.FractionalIsNew` | internal/repo/timeutil.go:15-28 | an item with a fractional date can only have been imported as new |
| `BundleOrder.OrderMattersForFractions` | internal/repo/cle.go:93-187 | with a fractional date one order succeeds and the other conflicts |
| `BundleOrder.Admissible` | internal/repo/distribution.go:71-110 | after the other bundle and the items before it, an item that is not there yet still meets its constraints and its uuid is free |
| `BundleStore.Repo.ImportEntity` | internal/repo/artifact.go:161-204 | present and equal: nothing; present and different: conflict; absent: inserted if the constraints hold |
| `BundleStore.Repo.ImportAllEntities` | internal/bundle/import.go:209-241 | the steps in their order give the import of the flattened manifest |
| `BundleStore.Repo.ImportEach` | internal/bundle/import.go:243-346 | one step's loop continues the import so far, or fails as the whole does |
| `BundleStore.Repo.ImportBundle` | internal/bundle/import.go:136-166 | all items, or the tables exactly as before; on success every entity of the manifest, of each kind where the manifest has it, has a row that means what storing it gives, and no other key was added |
| `BundleStore.FlattenBrings` | internal/bundle/import.go:209-346 | the items an import goes through are exactly the blobs, the product, each release, component, lifecycle entry, distribution, link with its pin, artifact and collection with its references that the manifest's own fields hold |
| `BundleStore.BundleArrives` | internal/bundle/import.go:136-241 | after a successful import each of those has a row that means what storing it gives; no other key was added and nothing there before changed |
| `BundleStore.ImportConcat` | internal/bundle/import.go:209-241 | importing one list and then another is importing their concatenation |
| `BundleExport.BuildManifest` | internal/bundle/export.go:76-164 | succeeds iff every link resolves; an entry is in the manifest iff it is a release of the product, a linked component, a pinned component release, or a collection listed under one of those releases, with no component twice; no link dangles, and the digests are exactly those reachable |
| `BundleExport.CopyBlobs` | internal/bundle/export.go:48-71 | succeeds iff every blob is there, with one entry for each digest holding its blob |
| `BundleExport.Export` | internal/bundle/export.go:29-54 | succeeds iff every link resolves and every reachable blob is there; the manifest is that complete one, with one file for each digest |
| `BundleManifest.CollectFileHashes` | internal/bundle/export.go:166-174 | adds exactly the digests of the collections |
| `BundleManifest.ExpectedIff` | internal/bundle/export.go:166-189 | the digests a manifest refers to are exactly the SHA-256 checksums of the formats of its collections' artifacts and of its component releases' distributions |
| `BundleFiles.CheckDanglingReferences` | internal/bundle/check.go:94-120 | reports exactly the links that dangle |
| `BundleFiles.CheckFileHashes` | internal/bundle/check.go:126-165 | fails iff an entry is too large; otherwise exactly the mismatches, the missing and the orphans |
| `BundleFiles.MissingFileHashes` | internal/bundle/import.go:541-563 | exactly the expected digests no file entry claims |
| `BundleFiles.ImportBlobs` | internal/bundle/import.go:493-534 | succeeds iff every file entry is small enough and is what its name says |
| `BundleFiles.ImportFileStage` | internal/bundle/import.go:172-241 | passes iff no expected digest is missing and every file entry is what its name says |
| `BundleFiles.CheckerAgreesWithImport` | internal/bundle/check.go:126-165 | within the size limit and without an entry named exactly `files/`, the importer's file stage passes iff the report is clean; with such an entry the report never is |
| `BundleFiles.BareEntryIsIgnored` | internal/bundle/import.go:493-534 | that entry makes no difference to the importer |
| `BundleExport.ExportIsClean` | internal/bundle/check.go:126-165 | in what export wrote the checker finds nothing missing and nothing orphaned, and a mismatch iff a blob is not what its name says |
| `BundleExport.ExportImports` | internal/bundle/import.go:493-563 | the importer's file stage accepts it iff every blob is what its name says and none exceeds the size limit |
| `BundleExport.ExportCheckImport` | internal/bundle/export.go:29-164 | the whole way from the store through the complete export to the checker's two reports and the importer's file stage, with the exact condition of each |
| `BundleRestore.IntoEmptyStore` | internal/bundle/import.go:205-241 | items read from a store import into an empty one iff every item's needs come before it, and then every row means what it meant in the store it came from |
| `BundleRestore.RestoresIffClosed` | internal/bundle/import.go:205-346 | a bundle read from a store imports into an empty one iff its manifest has every component release's component, every link's ends and pin, and every distribution its artifacts name; then everything it brings arrives with the meaning it had |
| `BundleRestore.ExportRestoresIff` | internal/bundle/export.go:76-164 | a complete export does so iff every pinned release is of a linked component and every distribution a listed artifact names is of a pinned release |
| `BundleRestore.ImportedIsClosed` | internal/bundle/import.go:205-346 | whatever imports into an empty store is closed in that sense |
| `BundleRestore.ForeignPinDoesNotImport` | internal/repo/productrelease.go:299-316 | a manifest whose link pins a release of another component has no dangling link and does not import into an empty store |
| `BundleExport.ExportImportsBackUnchanged` | internal/bundle/import.go:136-241 | a store that imports its own export is unchanged and creates nothing |
| `LoginLimiter.FilterInPlace` | internal/httpx/loginlimiter.go:83-88 | compacts in the same buffer to exactly the later attempts in order; no unread element is overwritten and nothing past the slice changes |
| `LoginLimiter.Limiter.Allow` | internal/httpx/loginlimiter.go:72-95 | the answer and the whole table after, other addresses untouched although buffers are reused |
| `LoginHistory.TableHoldsFresh` | internal/httpx/loginlimiter.go:72-95 | whatever the clock does, the table holds exactly the allowed calls, since the last reset, that lie in the window of every later call of their address |
| `LoginHistory.AllowedExactly` | internal/httpx/loginlimiter.go:72-95 | whatever the clock does, a call is allowed iff fewer than limit of those also lie in its own window |
| `LoginHistory.OverTheLimitIff` | internal/httpx/loginlimiter.go:72-95 | a call is let through over the limit iff at least limit allowed calls lie in its window and fewer than limit of them have not been forgotten |
| `LoginHistory.ForgottenByNewer` | internal/httpx/loginlimiter.go:72-76 | what a call should count is forgotten only by a call of the same address with a newer reading |
| `LoginHistory.TableRefinesHistory` | internal/httpx/loginlimiter.go:72-95 | the table has forgotten only what no window can reach that ends after every reading of the address so far |
| `LoginHistory.AllowedIffUnderLimit` | internal/httpx/loginlimiter.go:72-95 | a call no older than those before it of its address is allowed iff fewer than limit allowed calls since the last reset fall in its window |
| `LoginHistory.NoWindowExceedsLimit` | internal/httpx/loginlimiter.go:72-95 | for an address whose readings never go back, no window anywhere in the history holds more than limit allowed calls |
| `LoginHistory.TableBounded` | internal/httpx/loginlimiter.go:72-95 | at most 10,001 addresses with at most limit entries each, whatever the clock does |
| `LoginHistory.OutOfOrderReadings` | internal/httpx/loginlimiter.go:72-76 | a run with readings out of order in which a call is allowed over the limit |
| `Approval.Repo.CreateApprovalRequest` | internal/openteapublisher/approval.go:94-112 | a pending request without decisions, zero required approvals meaning one; a bad kind, a taken uuid or a missing target or requester changes nothing |
| `Approval.Repo.RecordApprovalDecision` | internal/openteapublisher/approval.go:223-265 | the request after the decision, and every refusal without change |
| `Approval.CountApprovers` | internal/openteapublisher/approval.go:246-252 | the number of distinct known approvers |
| `Approval.QuorumOverAllRuns` | internal/openteapublisher/approval.go:223-265 | pending iff no rejection and too few distinct approvers; approved only by enough distinct others and without a rejection; rejected only by a rejection |
| `Approval.QuorumHoldsIff` | internal/openteapublisher/approval.go:98-101 | that law holds of all runs iff at least one approval is required |
| `Approval.EnoughApproversApprove` | internal/openteapublisher/approval.go:223-265 | approvals by as many distinct others as are required close a pending request as approved, and not before the last |
| `Approval.OneRejectionRejects` | internal/openteapublisher/approval.go:223-265 | one rejection by another closes a pending request as rejected |
| `Approval.NoQuorumNeedsNobody` | internal/openteapublisher/approval.go:253-255 | with a negative number required, an approval that counts for nobody closes the request |
| `Approval.ClosedNeverChanges` | internal/openteapublisher/approval.go:228-230 | a closed request is the same after any run of whole decisions |
| `Approval.InterleavingIsSafe` | internal/openteapublisher/approval.go:223-265 | in any interleaving of any number of calls, approved means enough distinct approvers other than the requester, and rejected means a rejection |
| `Approval.SerialIsRecord` | internal/openteapublisher/approval.go:223-265 | a call's statements with nothing in between are one whole decision |
| `Approval.RejectedCanBecomeApproved` | internal/openteapublisher/approval.go:223-265 | interleaved without a transaction, a rejected request becomes approved |
| `Approval.ClosedForGoodIff` | internal/openteapublisher/approval.go:223-265 | a closed request never changes again iff no call past its check still has a decision to add or another status to write |
| `Accept.BestAcceptQuality` | internal/api/artifactdownload.go:397-426 | the quality of the first range naming exactly the type and subtype; without one, of the first naming the type with a wildcard; without one, of the first that is all wildcard; no match iff there is none or its quality is not positive |
| `Accept.SelectFormat` | internal/api/artifactdownload.go:445-479 | an explicit media type wins or fails alone; otherwise the earliest format of maximal quality, nothing iff all are excluded, the first one without Accept |
| `Accept.Negotiate` | internal/api/artifactdownload.go:460-478 | the earliest format of maximal quality; none iff every format is excluded |
| `Accept.OrderDoesNotMatter` | internal/api/artifactdownload.go:405-421 | the same pairwise distinct ranges in another order give every format the same quality |
| `Accept.ChoiceIgnoresOrder` | internal/api/artifactdownload.go:445-479 | and the same choice |
| `Accept.ChoiceIsUnique` | internal/api/artifactdownload.go:460-478 | at most one format meets the description of the choice |
| `Accept.RepeatedRangeOrderMatters` | internal/api/artifactdownload.go:417-420 | with a repeated range the first one wins |

## Left out

- Deletions of releases, components and groups, and reimport of a deleted identity: the conditional-read and draft histories contain no deleting writes except of drafts. Releases may come and go freely in the draft protocol.
- Digests, signatures, certificates, canonical JSON: a digest is a function parameter; `EvidenceAttestsPublication` assumes that the signed and the published collection do not collide under it, and compares digests as values, not by letter case.
- SQL text, JSON, zip and base64 decoding, JSON Schema validation of manifests, blob storage.
- HTTP plumbing, sessions, audit records, templates, configuration, command lines, reference clients, the conformance suite.
- List-endpoint entity tags and table watermarks, and the product-release response, which embeds a collection the same way: they would repeat the component-release argument.
- Draft expiry sweeping, draft creation time, and the notes and comments of approval requests; that a decider's account exists is not checked.
- Parsing of the Accept header's text, and qualities that are not finite numbers.
- Rewriting of locations to self-hosted ones on import: the comparisons ignore locations. The format key joins fields with separators; here it is the tuple of them.
- ImportUnchecked and the advisory archive-size prefilter.
- Candidate rules are gathered from one database state at one instant; the source runs several statements, each with its own clock reading.
- Account deletion, which sets deciders to NULL and would lower the distinct count.
- Page tokens are modelled as the row they resume from; their encoding and scope check are not.
- ConditionalGet.WriteEffect: a lifecycle document's events and definitions are one list of entries.
- DraftSigning.PeekCollectionDraftCommit: each listed artifact is read at one instant of its own; the source reads its row, formats and checksums in separate statements.
- PageWalk.Walk: every row that ever appears belongs to a finite universe; a table that keeps growing ahead of the cursor could keep a client going.
- BundleExport.BuildManifest: the listings it reads are not cut off at the export's fetch limit.
- LoginLimiter.Limiter.Allow: the mutex is not modelled; calls happen one after another with their readings as arguments.
- DraftRepo.DiffAgainstCurrent: the order of the added uuids is not stated, since the source ranges over a map.
