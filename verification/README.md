# The authorization cache, its watchers and the RBAC evaluator behind them

The project server shows each user an access-filtered view of the namespaces (README.md:4 of the
repository). It does not ask RBAC on every list. It asks "who may get this namespace?" ahead of time, keeps
the answers in an index from users and groups to namespaces, and tells watchers when an answer changes. This
project models that machinery and proves that the shortcut is right, or exactly when it is.

| directory | contents |
|---|---|
| `rbac/` | what RBAC grants, said of the policy's objects alone (`PlainRbac.dfy`); the RBAC evaluator: rule matching, the rule resolver with its short-circuiting visitor, the subject locator, and the duality of the last two |
| `auth/Reviewer.dfy` | the question asked about a namespace and the flattening of its answer to user and group names |
| `auth/InvertedIndex.dfy`, `auth/RecordStores.dfy`, `auth/UpdateMoments.dfy`, `auth/Stores.dfy` | one inverted store as a value with its single writes, the same as heap objects holding shared records, what List could see between the writes to both, and the three stores together |
| `auth/AccessIndex.dfy`, `auth/Informers.dfy` | review requests, `skipReview`, merging of records, one pass over everything, the purge |
| `auth/SkipToken.dfy`, `auth/ChangeDetector.dfy` | when a synchronization is skipped and when it rebuilds |
| `auth/Synchronization.dfy`, `auth/Incremental.dfy`, `auth/Freshness.dfy`, `auth/MixedRuns.dfy` | one synchronization as a function of the cache's state; incremental passes against rebuilds; whole runs, rebuilding throughout or as the change detector decides, against RBAC |
| `auth/ProjectWatcher.dfy`, `auth/Notifications.dfy`, `auth/WatchRuns.dfy`, `auth/StrandedNamespaces.dfy` | the watcher's event log and delivery; rounds of notifications; runs of cache and watchers together, and where they part |
| `auth/QueueRoom.dfy`, `auth/WatchProgress.dfy` | what a notification does and when a queue overflows, for single notifications and whole runs; that no watch hangs |
| `auth/EndToEnd.dfy` | RBAC, cache and watch joined: what a client arrives at by replaying its watch |
| `auth/WatcherObjects.dfy`, `auth/AuthorizationCache.dfy`, `auth/ObjectRuns.dfy` | the two mutable objects of the source as classes, each method proved against the functions above, and whatever is asked of them as a run of the model |

Every list or lookup the cache makes is a field of the value `World`, held fixed during one synchronization.
Each may fail on its own, and nothing relates them to one another until a hypothesis says so (`Sound`,
`Coherent`, `Steady`). Four results tie the layers together. `Synchronization.ListIsTheRbacDecision` and, over
runs in which rebuilds and incremental passes alternate, `MixedRuns.RunListsTheRbacDecision` say that `List`
answers the RBAC decision. `WatchRuns.ReplayEqualsList` says that a client that replays its watch arrives at
what `List` answers, and `EndToEnd.ReplayIsTheRbacDecision` that it arrives at the RBAC decision.
What RBAC decides is said there in the words of `PlainRbac`: bindings, roles and rules under the names that
clusters know them by, and no part of the evaluator. `ObjectRuns.Serve` says that the objects, whatever is asked
of them, go through such a run of just those steps, and `ObjectRuns.ServeAccountably` what the watcher objects
then know, under conditions on the commands alone. That they get anywhere is `QueueRoom.SynchronizationFits`, a
bound within which no queue overflows, and `WatchProgress.NoWatchHangs`.

## Where the code does something else than one would expect

- `AllowedSubjects` leaves a ServiceAccount subject without a namespace as it is, and the cache then fills in
  the reviewed namespace; the rule resolver never does so for a cluster binding. The two sides can therefore
  disagree. `SubjectLocator.AgreeOnEveryUserIff` gives the exact condition and
  `SubjectLocator.UnqualifiedServiceAccountDisagrees` a policy for which they do disagree.
- `invalidateCache` stores its scratch set and then clears and refills that same object with binding versions
  (pkg/project/auth/cache.go:306, 315-317). From then on the recorded role versions are really binding
  versions. Consequence one: with nothing changed it still asks for a rebuild, exactly while binding versions
  that differ from the role versions are recorded for roles (`ChangeDetector.FalseAlarmIff`); in an ordinary
  cluster every synchronization that is not skipped is a rebuild (`Freshness.EverySyncRebuilds`). Consequence
  two: a listed role change can go unnoticed, exactly when `ChangeDetector.MissedChangeIff` says. When the
  roles cannot be listed, it answers false whatever changed, and the bindings are not looked at either
  (`ChangeDetector.AnswersFalseIff`).
- The incremental path does not see a role or binding disappear when nothing else in the namespace changes:
  `MixedRuns.DeletionAloneIsMissed` has two synchronizations, neither skipped and the second not a rebuild,
  after which a user whom RBAC denies is still listed. Nor does it drop a record whose review fails, as a rebuild
  would. Nor does it see that a binding came back in the version it had before it was deleted, since records do
  not forget versions (`MixedRuns.ReturnIsMissed`). `MixedRuns.SynchronizationIsCurrentIff` says exactly when a
  synchronization is right.
- A failed namespace listing empties the index and still records the token, so that it is not retried until
  some reflector moves (`Synchronization.FailedListingEmptiesTheIndex`). A role or binding of a namespace that
  was not known before is still reviewed then, and announced to watchers that will not be told it is gone
  (`StrandedNamespaces.FailedListingStrands`). Conversely, a listed namespace that Get does not find is reviewed
  and indexed but not announced (`StrandedNamespaces.OverlookedStaysUnknown`). These are the only two ways in
  which a watcher and the index part (`WatchRuns.SyncKeepsInvariantIff`).
- The skip token joins four versions without a separator and is ambiguous (`SkipToken.TokenIsAmbiguous`). An
  unchanged token means unchanged versions exactly when three of them kept their lengths
  (`SkipToken.SameTokenSameVersionsIff`), as versions that are decimals and never decrease do
  (`SkipToken.TokenIsFaithful`).
- A review is written into the two inverted stores one after the other, all removals first. A user who had
  access by name and then has it through a group is in neither store for a moment
  (`UpdateMoments.AccessCanLapse`); `UpdateMoments.AccessIsKeptIff` has the exact condition.
- A watcher whose queue is full calls `RemoveWatcher`, which waits for the lock that its caller
  `notifyWatchers` holds. The model calls the cache `stuck` from then on and lets it take no further step.

## Model

| member | source | states |
|---|---|---|
| Allows.ResourceRequestAllowedIff | pkg/apiserver/rbac/allows.go:21-104 | a rule allows a request for a resource iff "*" or the verb is among its verbs, "*" or the group among its groups, "*", the resource with its subresource or "*/" and the subresource among its resources, and its names are none or include the one asked for |
| Allows.StarsAllowEveryResource | pkg/apiserver/rbac/allows.go:38-104 | a rule with "*" for verbs, groups and resources and no names allows every request for a resource |
| Allows.PathRequestAllowedIff | pkg/apiserver/rbac/allows.go:106-120 | a rule allows a request for a path iff the verb matches and "*", the path, or a beginning of it followed by stars is among its URLs |
| RuleResolver.ReferenceResolvesIff | pkg/apiserver/rbac/rule.go:130-148 | a reference resolves iff it is to a Role of the binding's namespace or a ClusterRole, of the RBAC group, that can be had, and then to exactly that role's rules |
| RuleResolver.BindingAllowsIff | pkg/apiserver/rbac/rule.go:130-148 | a binding to a ClusterRole allows in any namespace what a rule of that ClusterRole allows, one to a Role what a rule of that Role in its namespace allows, any other nothing |
| RuleResolver.AppliesToUserIff | pkg/apiserver/rbac/rule.go:159-181 | which user names and groups a subject means, ServiceAccounts by their full names, in the binding's namespace unless they say another |
| RuleResolver.AllowedIff | pkg/apiserver/rbac/rule.go:77-181 | the resolver allows a request iff a listed binding has a subject that means the user and a reference to a role with a rule that allows it |
| RuleResolver.RulesForErrorFreeIff | pkg/apiserver/rbac/rule.go:77-148 | RulesFor is error-free iff both listings work and every listed binding that means the user refers to a role that can be had |
| RuleResolver.VisitRulesFor | pkg/apiserver/rbac/rule.go:77-127 | for any stateful visitor, the loops leave it in the state it reaches when shown the full sequence of visits up to its first refusal |
| RuleResolver.ShownAPrefixEndingAtTheFirstStop | pkg/apiserver/rbac/rule.go:77-127 | what a visitor is shown is a prefix of the full sequence; it accepted everything before the last, and the prefix is proper only if it refused the last |
| RuleResolver.ShortCircuitDecides | pkg/apiserver/rbac/rule.go:77-127 | stopping at the first allowing rule decides as RulesAllow does over all the rules |
| RuleResolver.UserMay | pkg/apiserver/rbac/rule.go:77-127 | the visitor that stops early answers RulesAllow over everything RulesFor returns, which `AllowedIff` reads off the policy's objects |
| RuleResolver.AccumulatorKeepsAll | pkg/apiserver/rbac/rule.go:62-75 | the accumulating visitor never stops and ends with all rules and all errors, in order |
| RuleResolver.RulesFor | pkg/apiserver/rbac/rule.go:56-60 | returns all rules and all errors of the full visit sequence; when there are no errors, and what the rules allow, is `RulesForErrorFreeIff` and `AllowedIff` |
| RuleResolver.UserGrantedIff | pkg/apiserver/rbac/rule.go:77-148 | RulesFor allows a request iff a listed binding applies to the user and its role resolves to a rule allowing it |
| SubjectLocator.AllowedSubjects | pkg/apiserver/rbac/subject_locator.go:44-105 | the loops return the implicit subjects followed by every subject of every binding that resolves and allows, and all lookup and list errors; who that is and when it fails is `PolicySubjectsIff` and `LocatorErrorFreeIffResolvable` |
| SubjectLocator.PolicySubjectsContains | pkg/apiserver/rbac/subject_locator.go:50-89 | a subject is returned for the policy's sake iff some listed binding allows the request and names it |
| SubjectLocator.PolicySubjectsIff | pkg/apiserver/rbac/subject_locator.go:50-89 | ... that is, iff some listed binding names it and refers to a role with a rule that allows the request |
| SubjectLocator.AllowedIsLocated | pkg/apiserver/rbac/subject_locator.go:44-105 | every user the resolver allows is covered by a located subject |
| SubjectLocator.LocatedIsAllowed | pkg/apiserver/rbac/rule.go:150-181 | a user a located subject covers is allowed, unless it is an unqualified ServiceAccount of a cluster binding |
| SubjectLocator.LocatorAgreesWithResolver | pkg/apiserver/rbac/subject_locator.go:44-105 | both traversals agree on every user once allowing cluster bindings qualify their ServiceAccounts |
| SubjectLocator.AgreeOnEveryUserIff | pkg/apiserver/rbac/rule.go:159-181 | they agree on every user iff each unqualified ServiceAccount of an allowing cluster binding is allowed by another grant |
| SubjectLocator.UnqualifiedServiceAccountDisagrees | pkg/apiserver/rbac/rule.go:173-177 | a policy, user and request on which they disagree |
| SubjectLocator.SameNameMoreGroups | pkg/apiserver/rbac/rule.go:159-181 | being in more groups never loses a permission |
| SubjectLocator.LocatorErrorFreeIff | pkg/apiserver/rbac/subject_locator.go:50-89 | AllowedSubjects is error-free iff both listings work and every listed binding's role resolves |
| SubjectLocator.LocatorErrorFreeIffResolvable | pkg/apiserver/rbac/rule.go:130-148 | ... that is, iff every listed binding's reference is to a Role or ClusterRole of the RBAC group that can be had |
| SubjectLocator.ErrorFreeLocatorMeansErrorFreeRules | pkg/apiserver/rbac/subject_locator.go:44-105 | an error-free AllowedSubjects implies an error-free RulesFor for every user |
| SubjectLocator.ExtendingKeepsSubjects | pkg/apiserver/rbac/rule.go:19-22 | more bindings, subjects, rules, roles or working lookups never remove an allowed subject |
| SubjectLocator.ExtendingKeepsPermissions | pkg/apiserver/rbac/rule.go:19-22 | nor turn an allowed request into a denied one |
| Reviewer.Flatten | pkg/project/auth/cache.go:382-407 | the loop yields user and group names in order, ServiceAccounts defaulted to the reviewed namespace |
| Reviewer.AskEvaluator | pkg/project/auth/reviewer.go:29-39 | the subjects located, or the errors alone when there are any; `ReviewIs` says which subjects and when |
| Reviewer.QuestionIs | pkg/project/auth/reviewer.go:29-39 | a rule answers the question iff "get" or "*" is among its verbs, "" or "*" among its groups, "namespaces" or "*" among its resources, and its names are none or include the namespace |
| Reviewer.ReviewIs | pkg/project/auth/reviewer.go:29-39 | a review succeeds iff both listings work and all listed references can be resolved; it then names exactly system:masters, the superuser if there is one, and each subject that a listed binding names whose role has such a rule |
| Reviewer.UserMayGetIff | pkg/project/auth/reviewer.go:29-39 | the resolver lets a user get a namespace iff a listed binding means the user and its role has such a rule |
| Reviewer.FlatteningPreservesAccess | pkg/project/auth/cache.go:382-407 | having one's name among the users or a group among the groups is exactly "some subject applies to the user" |
| Reviewer.ReviewLocates | pkg/project/auth/reviewer.go:29-39 | a review gives access to exactly the exempt users (of system:masters, or the superuser) and those some granted subject covers |
| Reviewer.ReviewDecides | pkg/project/auth/reviewer.go:29-39 | with qualified cluster subjects, to exactly the exempt users and those a listed binding means whose role has a rule that lets one get the namespace |
| InvertedIndex.InverseIsUnique | pkg/project/auth/cache.go:409-421 | the forward records determine an inverted store completely |
| InvertedIndex.ReplaceKeepsInverse | pkg/project/auth/cache.go:409-421 | removing a namespace from stale subjects and adding it to reviewed ones keeps the store the inverse of the records |
| InvertedIndex.ForgetKeepsInverse | pkg/project/auth/cache.go:274-284 | so does forgetting any set of namespaces |
| InvertedIndex.DeleteWritesAmountTo | pkg/project/auth/cache.go:507-518 | the single writes of deleteNamespaceFromSubjects remove the namespace from each subject and drop the emptied |
| InvertedIndex.AddWritesAmountTo | pkg/project/auth/cache.go:521-532 | the single writes of addSubjectsToNamespace add it to each subject, created if missing |
| InvertedIndex.NoTransientLoss | pkg/project/auth/cache.go:409-421 | after every write of a review to one store the subjects under its namespace lie between the common and the combined ones, other namespaces are untouched, and the end is exactly new |
| RecordStores.SubjectStore.GetByKey | pkg/project/auth/cache.go:507-532 | in a well-formed store: null exactly if the contents have no such subject, else that subject's own record object, holding the namespaces of the contents |
| RecordStores.SubjectStore.Add | pkg/project/auth/cache.go:521-532 | the record is found under its subject from then on, in place of any other record of that subject; the store stays well-formed over its records and this one |
| RecordStores.SubjectStore.Delete | pkg/project/auth/cache.go:507-518 | the subject has no record any more, all others keep theirs, and the store stays well-formed |
| RecordStores.SubjectStore.KeysHoldDistinctRecords | pkg/project/auth/cache.go:32-36 | no two keys share a record object |
| RecordStores.DeleteNamespaceFromSubjects | pkg/project/auth/cache.go:507-518 | in place: new contents, no new record, and the contents after every single write |
| RecordStores.AddSubjectsToNamespace | pkg/project/auth/cache.go:521-532 | in place: new contents, only fresh records added, and the contents after every single write |
| UpdateMoments.MomentsStayBetween | pkg/project/auth/cache.go:409-421 | at every write of a review to either store, each store is between old and new, subject by subject, and no other namespace is touched |
| UpdateMoments.EmptiedIsAMoment | pkg/project/auth/cache.go:418-421 | the index passes through the moment at which all removals and no addition have been made |
| UpdateMoments.AccessIsKeptIff | pkg/project/auth/cache.go:409-421 | a user with access before and after a review has it at every write in between iff some subject that gives it is listed both before and after |
| UpdateMoments.AccessCanLapse | pkg/project/auth/cache.go:418-421 | a consistent index, a review and a user with access before and after it whom List would not answer in between |
| Stores.StoreSet.constructor | pkg/project/auth/cache.go:342-346 | new stores are empty and share nothing with anything older |
| Stores.StoreSet.ReplaceStepByStep | pkg/project/auth/cache.go:409-421 | deletes and adds in the source's order on both stores; the contents become those of the new review, and the points are the whole index after every write, with each store between old and new |
| Stores.StoreSet.ReplaceReview | pkg/project/auth/cache.go:409-421 | the stores become RecordReview of what they were, over fresh or own records only |
| Stores.StoreSet.DeleteReview | pkg/project/auth/cache.go:274-284 | one record and its namespace leave all three stores |
| Stores.StoreSet.PurgeRecords | pkg/project/auth/cache.go:274-284 | the loop over all records forgets exactly the namespaces not listed |
| AccessIndex.SkipIffMergeChangesNothing | pkg/project/auth/cache.go:466-504 | a review is skipped iff merging the request into the record changes no version |
| AccessIndex.RecordReviewKeepsConsistent | pkg/project/auth/cache.go:409-421 | a review keeps both stores the inverse of the records, with no empty subject record |
| AccessIndex.SyncAllKeepsConsistent | pkg/project/auth/cache.go:366-425 | so does any sequence of requests, whatever reviews fail |
| AccessIndex.PurgeKeepsConsistent | pkg/project/auth/cache.go:274-288 | so does the purge, after which only listed namespaces are indexed |
| AccessIndex.PassEffect | pkg/project/auth/cache.go:366-425 | a namespace reviewed in a pass ends up showing, and announced with, its current review; any other keeps its record and is not announced |
| AccessIndex.PassCovers | pkg/project/auth/cache.go:544-572 | after a pass the record of a reviewable namespace covers every request made about it |
| AccessIndex.PassKeepsCoverage | pkg/project/auth/cache.go:544-572 | a record does not forget what it covers, whatever compatible requests come |
| AccessIndex.CoveredPassIsQuiet | pkg/project/auth/cache.go:366-376 | a pass whose requests are all covered reviews and announces nothing |
| Informers.RequestsAreCompatible | pkg/project/auth/cache.go:217-272 | requests from one state of the informers never carry two versions of one object |
| Informers.AskedAboutIff | pkg/project/auth/cache.go:217-272 | a synchronization has reason to review a namespace iff it, a role in it or a role binding in it is listed, and not on its record at that version |
| Informers.ListedIsAtItsVersion | pkg/project/auth/cache.go:327-363 | after a pass each reviewable listed namespace that carries a version has a record at the version Get finds, whatever role and binding listings and other reviews fail |
| Informers.ListedIsRecorded | pkg/project/auth/cache.go:327-363 | after a pass each reviewable listed namespace has a record, whatever else fails |
| Informers.RefreshCovers | pkg/project/auth/cache.go:466-572 | after an error-free pass each listed namespace's record covers all its roles and bindings |
| Informers.SecondPassIsQuiet | pkg/project/auth/cache.go:327-363 | a second non-rebuilding pass over the same informers reviews nothing, announces nothing and changes nothing |
| SkipToken.TokenIsAmbiguous | pkg/project/auth/cache.go:92-98 | two different sets of versions with the same token |
| SkipToken.SameTokenSameVersionsIff | pkg/project/auth/cache.go:92-111 | an unchanged token means unchanged versions iff the first three policy versions kept their lengths, for namespace versions without a comma |
| SkipToken.GrowingIsNotShorter | pkg/project/auth/cache.go:102-111 | a canonical decimal that does not decrease does not get shorter |
| SkipToken.TokenIsFaithful | pkg/project/auth/cache.go:92-111 | for versions empty or decimal and never decreasing, equal tokens iff every version is equal |
| ChangeDetector.VersionSet.InsertRoles | pkg/project/auth/cache.go:300-303 | the loop adds every listed role's version |
| ChangeDetector.VersionSet.InsertBindings | pkg/project/auth/cache.go:316-318 | the loop adds every listed binding's version |
| ChangeDetector.VersionSet.DiffersFrom | pkg/project/auth/cache.go:304 | the test by size and membership is set inequality |
| ChangeDetector.RecordedVersions | pkg/project/auth/cache.go:291-324 | after any calls, errors included, the recorded binding versions are the last listed, the recorded role versions the last listed of roles or of bindings |
| ChangeDetector.EveryCallInvalidates | pkg/project/auth/cache.go:291-324 | error-free calls with some role and no version shared between roles and bindings always answer true |
| ChangeDetector.MissedChangeIff | pkg/project/auth/cache.go:304-307 | whether or not the bindings can be listed, a change of the listed role versions goes unnoticed iff the new ones equal the recorded binding versions, it is these that are recorded for roles, and the bindings, if listed, are unchanged |
| ChangeDetector.AnswersFalseIff | pkg/project/auth/cache.go:291-324 | for every call, errors included: it answers false iff the roles cannot be listed, or the listed roles are those recorded and the bindings, if they can be listed, are the last listed ones |
| ChangeDetector.FalseAlarmIff | pkg/project/auth/cache.go:304-317 | with nothing changed a call answers true iff what is recorded for roles is not the last listed role versions |
| ChangeDetector.BindingChangeIsNoticedIff | pkg/project/auth/cache.go:291-322 | a change of binding versions is noticed iff the roles can be listed |
| ChangeDetector.RoleChangeCanBeMissed | pkg/project/auth/cache.go:304-317 | error-free calls after which other role versions are answered false |
| ChangeDetector.RoleChangeCanBeMissedInAFailingCall | pkg/project/auth/cache.go:304-313 | a call whose role versions changed and whose binding listing fails is answered false |
| Synchronization.SynchronizationKeepsInvariant | pkg/project/auth/cache.go:327-363 | the inverse-index invariant survives every synchronization, whatever fails, and every indexed namespace is known |
| Synchronization.EveryReachableIndexIsConsistent | pkg/project/auth/cache.go:327-363 | hence it holds after every run |
| Synchronization.ReadyFromTheFirstSync | pkg/project/auth/cache.go:461-463 | the first synchronization is never skipped, and from it on the cache is ready |
| Synchronization.FailedListingEmptiesTheIndex | pkg/project/auth/cache.go:217-236 | a failed namespace listing empties the index, and the same versions are then skipped |
| Synchronization.IndexedIffReviewed | pkg/project/auth/cache.go:428-443 | List collects for a user exactly the namespaces whose record gives them access |
| Synchronization.ListAnswersRecords | pkg/project/auth/cache.go:428-459 | List fails iff a lookup under a record that lists the user or a group of theirs fails otherwise than by NotFound, with such a failure; else it answers exactly what is found under such records |
| Synchronization.RebuildIsCurrent | pkg/project/auth/cache.go:339-358 | a rebuild indexes exactly the listed namespaces whose review succeeds, each with its current review |
| Synchronization.CurrentIndexDecides | pkg/project/auth/cache.go:428-459 | such an index gives a user exactly the namespaces RBAC allows or privilege grants |
| Synchronization.CurrentIndexAnswers | pkg/project/auth/cache.go:428-459 | with no lister error List answers them, once each and as listed |
| Synchronization.ListIsTheRbacDecision | pkg/project/auth/cache.go:327-459 | after a synchronization that rebuilt, whatever role and binding listings and reviews failed, List answers, once each and as listed, exactly the listed namespaces reviewed without error that the user may get by RBAC or privilege |
| Incremental.SameObjectsSameReview | pkg/apiserver/rbac/subject_locator.go:44-105 | a review depends on cluster roles and bindings and on the roles and bindings of its namespace, nothing else |
| Incremental.IncrementalIsCurrentIff | pkg/project/auth/cache.go:335-359 | one incremental pass, whatever reviews fail, leaves the index as current as a rebuild iff each listed namespace is recorded with its current review if there is no reason to review it, and not recorded if its review fails |
| Incremental.CurrentIsUnique | pkg/project/auth/cache.go:335-359 | two indexes current for the same informers have the same stores and subject sets |
| Freshness.CacheRemembers | pkg/project/auth/cache.go:327-363 | after any run the cache holds the token and listing of its last completed synchronization and the versions of all completed ones |
| Freshness.SkippedIffNothingMoved | pkg/project/auth/cache.go:102-111 | along any run of non-decreasing versions, a synchronization is skipped iff no version moved since the last completed one |
| Freshness.EverySyncRebuilds | pkg/project/auth/cache.go:291-324 | in an ordinary cluster every synchronization that is not skipped rebuilds |
| Freshness.LastSynchronization | pkg/project/auth/cache.go:327-332 | a skipped synchronization adds nothing to a run, and any other advances it by one completed synchronization |
| Freshness.AlwaysCurrent | pkg/project/auth/cache.go:327-363 | there the index is current for the last completed synchronization after every run, deletions included |
| Freshness.ListIsAlwaysTheRbacDecision | pkg/project/auth/cache.go:327-459 | there, after any run, what List answers is the RBAC decision as of the last completed synchronization |
| MixedRuns.IndexIsBuilt | pkg/project/auth/cache.go:327-363 | after any run the index is what the completed synchronizations from the last rebuild on make of empty stores |
| MixedRuns.SynchronizationIsCurrentIff | pkg/project/auth/cache.go:335-359 | a synchronization, whatever reviews fail, leaves a current index iff it rebuilds, or each listed namespace is recorded with its current review if there is no reason to review it, and not recorded if its review fails |
| MixedRuns.UntriggeredKeepsItsReview | pkg/project/auth/cache.go:466-504 | along a run that can be followed, a namespace the next synchronization has no reason to review is on record with the review it would get |
| MixedRuns.RunRecordsAreSourced | pkg/project/auth/cache.go:544-572 | after any run the records remember only versions of objects listed since the last rebuild |
| MixedRuns.RunStaysCurrent | pkg/project/auth/cache.go:327-363 | however rebuilds, incremental passes and skipped synchronizations alternate, if those since the last rebuild can be followed the index is current for the last completed one |
| MixedRuns.RunRefinesRebuild | pkg/project/auth/cache.go:335-359 | and then has the same user and group stores and the same reviewed subject sets as a rebuild from empty stores |
| MixedRuns.RunListsTheRbacDecision | pkg/project/auth/cache.go:327-459 | and List answers the RBAC decision as of that synchronization |
| MixedRuns.DeletionAloneIsMissed | pkg/project/auth/cache.go:488-501 | two synchronizations, not skipped and the second not a rebuild, between which one role binding is deleted: the user stays listed though RBAC denies, and a rebuild would not list |
| MixedRuns.ReturnIsMissed | pkg/project/auth/cache.go:544-572 | three synchronizations, none skipped and none but the first from empty stores, between which a binding goes while its namespace changes and then comes back in the same version: every loss shows, yet the user is not listed though RBAC allows |
| MixedRuns.AdditionIsFollowed | pkg/project/auth/cache.go:488-501 | two synchronizations of the same kind between which the binding appears: the run can be followed and the user is listed after it |
| Freshness.ResyncIsUnobservable | pkg/project/auth/cache.go:327-363 | synchronizing again over the same informers, rebuilding or not, changes no answer and sends no watcher anything |
| ProjectWatcher.OfferKeepsLog | pkg/project/auth/watch.go:109-167 | one notification that does not overflow keeps the log legal and folding to knownProjects |
| ProjectWatcher.LogIsWellFormed | pkg/project/auth/watch.go:73-167 | for any notifications up to the first overflow each namespace's events alternate legally and fold to knownProjects, names and versions |
| ProjectWatcher.KnownFromContains | pkg/project/auth/watch.go:73-107 | knownProjects starts with exactly the listed names at their versions |
| ProjectWatcher.AddedEventsReplay | pkg/project/auth/watch.go:73-107 | replaying the initial Added events gives exactly the initial knownProjects |
| ProjectWatcher.ActKeepsLive | pkg/project/auth/watch.go:171-213 | every step of producer, Watch goroutine and client keeps the delivery invariant |
| ProjectWatcher.DeliveryTheorem | pkg/project/auth/watch.go:171-213 | under every interleaving the client receives a prefix of initial then accepted events, a subsequence after Stop, and at most one Error event, last and only after an overflow |
| ProjectWatcher.NothingLostBeforeStop | pkg/project/auth/watch.go:171-213 | before Stop, delivered and still queued events make up the whole stream and replay to knownProjects |
| ProjectWatcher.RemoveFirstAt | pkg/project/auth/cache.go:199-214 | shifting out the first occurrence is what the loop does |
| QueueRoom.NotificationIs | pkg/project/auth/watch.go:109-167 | a notification does nothing unless it is about a namespace the watcher is let see that left the user's sight, came into it or has a new version; it then becomes known and is queued, or, with 1000 waiting, the complaint is kept |
| QueueRoom.OverflowsIff | pkg/project/auth/watch.go:90 | with fewer than 1000 accepted events not taken up no notification overflows, with 1000 exactly those that have something to tell do |
| QueueRoom.RoundFits | pkg/project/auth/cache.go:535-541 | a round whose notes fit into the room of each listening watcher, as often as it listens, is not cut short |
| QueueRoom.RunIsOrderly | pkg/project/auth/cache.go:192-197 | in every run that is not stuck each registered watcher is registered once and has not overflowed |
| QueueRoom.NotesAtMost | pkg/project/auth/cache.go:327-363 | a synchronization announces at most one thing for each object listed and each namespace gone |
| QueueRoom.SynchronizationFits | pkg/project/auth/watch.go:123-162 | in every run a synchronization gets through if each registered watcher has room, within 1000, for one event for each object listed and each namespace gone |
| QueueRoom.CaughtUpSynchronizationFits | pkg/project/auth/watch.go:123-162 | so does one over at most 1000 of these when the registered watchers have taken up everything |
| WatchProgress.EveryStepCounts | pkg/project/auth/watch.go:171-213 | while nothing is notified and nobody stops, each step of goroutine or client, in any order, is one of those left, two for each event not taken up and one for the one being sent |
| WatchProgress.CatchesUp | pkg/project/auth/watch.go:171-213 | every live watch that has neither overflowed nor been stopped can, by steps of goroutine and client alone, hand over exactly its whole stream |
| WatchProgress.RestsOnlyWhenCaughtUp | pkg/project/auth/watch.go:171-213 | and does so in every schedule: goroutine and client cannot come to rest before |
| WatchProgress.OverflowCanBeReported | pkg/project/auth/watch.go:194-199 | after an overflow a listening client can still receive the Error event with its complaint, last, and the goroutine end |
| WatchProgress.StopCanEndTheWatch | pkg/project/auth/watch.go:100-105 | after Stop the goroutine can end without the client |
| WatchProgress.NoWatchHangs | pkg/project/auth/watch.go:171-243 | whatever happened to a watch, one of these three ways is open to it |
| WatchProgress.NeverRefused | pkg/project/auth/watch.go:231-243 | a client can stop at any time, and a watcher that has not overflowed be notified at any time |
| WatchProgress.AnyReadyArmCanBeTaken | pkg/project/auth/watch.go:194-212 | in the drain loop the goroutine can take any arm whose channel is ready, whichever others are, and no other |
| WatchProgress.ErrorGoesBeforeInitialProjects | pkg/project/auth/watch.go:180-192 | in the loop over initial projects it takes an error if there is one, else emits the next project, and does not look at the client's stop |
| WatchProgress.SendingIsAChoice | pkg/project/auth/watch.go:100-105 | an event being sent can be received, stopped or not, and after Stop also be dropped; the goroutine then goes on, or has ended if it was the error |
| Notifications.RoundAt | pkg/project/auth/cache.go:535-541 | after a round not cut short, what a listening watcher knows of a namespace it sees is what the notes about it (all alike) and the lister's version say, or unchanged if there were none |
| Notifications.RoundKeepsLog | pkg/project/auth/cache.go:535-541 | a round not cut short keeps every watcher's log legal and complete |
| Notifications.RoundKeepsLive | pkg/project/auth/cache.go:535-541 | a round keeps every watcher's delivery invariant, stuck or not |
| Notifications.PassIsSyncAll | pkg/project/auth/cache.go:366-425 | requests worked off with notifications in between tell the watchers the round of all notes, leave SyncAll's index unless stuck, and a consistent one in any case |
| WatchRuns.SyncKeepsTrackingIff | pkg/project/auth/cache.go:327-363 | whatever listings, lookups and reviews fail, a watcher that tracks the index for a namespace tracks it after the synchronization iff the namespace is not announced while neither listed nor known before, nor listed, reviewed and unannounced because Get does not find it |
| StrandedNamespaces.StrandedStaysKnown | pkg/project/auth/cache.go:274-288 | such a namespace stays known to the watcher while List does not answer it |
| StrandedNamespaces.OverlookedStaysUnknown | pkg/project/auth/watch.go:134-139 | a listed and reviewed namespace that Get does not find stays unknown to the watcher while it is indexed for its user |
| StrandedNamespaces.FailedListingStrands | pkg/project/auth/cache.go:217-236 | a run with a failing namespace listing after which a watcher knows what List does not answer |
| WatchRuns.SyncKeepsInvariantIff | pkg/project/auth/cache.go:327-363 | whatever listings, lookups and reviews fail, a synchronization keeps the invariant of cache and watchers iff in neither of these two ways a registered watcher and the index part over a namespace it sees |
| WatchRuns.MatchingIsSteady | pkg/project/auth/cache.go:448-457 | with a lister whose Get finds exactly the listed namespaces, at their versions, nobody parts |
| WatchRuns.RunKeepsInvariant | pkg/project/registry/project/storage.go:85-105 | every run of such synchronizations, of registrations at which Get finds what is indexed for the user, and of removals and watcher or client steps keeps it until it gets stuck |
| WatchRuns.WatchEqualsList | pkg/project/auth/watch.go:73-167 | after every such run a registered watcher knows, of the namespaces it sees, exactly those List answers, but for those listed and off the record since their review failed or indexed and not found by Get; so after a synchronization free of review errors whose indexed namespaces Get finds exactly those |
| WatchRuns.WatchEqualsListVersions | pkg/project/auth/watch.go:127-153 | at the versions List answers, if at each synchronization Get agreed with List and namespaces carried versions, and reviews succeeded at the last one and for what was indexed at registrations |
| WatchRuns.ReplayGivesKnown | pkg/project/auth/watch.go:171-213 | a registered watcher's stream is legal from what its client knew at registration, and before Stop delivered then queued events replay to what the watcher knows |
| WatchRuns.ReplayEqualsList | pkg/project/auth/watch.go:73-213 | for a watcher of all namespaces that was not stopped, delivered then queued events replay to exactly the names List answers, from nothing if existing projects were asked for, else from what List answered at registration |
| WatchRuns.ReplayEqualsListVersions | pkg/project/auth/watch.go:73-213 | at the versions List answers, under the same conditions |
| EndToEnd.RunsOfTheCache | pkg/project/auth/cache.go:187-190 | whatever watchers do meanwhile, the cache of a run is where its synchronizations alone would have brought it, and the lister is that of the last completed one |
| EndToEnd.MatchingRunIsSteady | pkg/project/auth/cache.go:448-457 | in a run whose every synchronization finds Get matching List nobody parts, registrations included |
| EndToEnd.WatcherKnowsTheRbacDecision | pkg/project/auth/watch.go:109-167 | after a run kept current by rebuilding or by followable passes, a watcher knows, of the namespaces it sees that can be reviewed or are not listed, exactly those RBAC or privilege lets its user get |
| EndToEnd.ReplayIsTheRbacDecision | pkg/project/auth/watch.go:73-213 | after a run kept current, a client that has not stopped arrives by replaying what it got and will get, of the namespaces its watcher sees that can be reviewed or are not listed, at exactly those RBAC or privilege lets its user get; if it sees all and all can be reviewed, at exactly the set of them |
| EndToEnd.ReceivedIsTheRbacDecision | pkg/project/auth/watch.go:73-213 | and can get there by receiving alone: by steps of goroutine and client, with no further notification, the events received replay to exactly the set of them |
| EndToEnd.ReplayInAnOrdinaryCluster | pkg/project/auth/watch.go:73-213 | so it does in every run of an ordinary cluster whose Get matches List |
| WatcherObjects.UserProjectWatcher.GroupMembershipChanged | pkg/project/auth/watch.go:109-167 | the object's new state is Offer of its old one, which `NotificationIs` spells out; with fewer than 1000 waiting it does not overflow |
| WatcherObjects.UserProjectWatcher.TrySend | pkg/project/auth/watch.go:123-132 | with fewer than 1000 waiting queues the event behind them; else leaves the queue and keeps the complaint |
| WatcherObjects.UserProjectWatcher.EmitInitialProject | pkg/project/auth/watch.go:180-193 | takes up the next initial project, as the model's step does |
| WatcherObjects.UserProjectWatcher.ReceiveError | pkg/project/auth/watch.go:195-199 | takes up the pending error |
| WatcherObjects.UserProjectWatcher.ReceiveStop | pkg/project/auth/watch.go:201-202 | ends on the client's stop |
| WatcherObjects.UserProjectWatcher.ReceiveEvent | pkg/project/auth/watch.go:204-210 | takes the oldest queued event and starts sending it; that this does happen is `CatchesUp` |
| WatcherObjects.UserProjectWatcher.Emit | pkg/project/auth/watch.go:100-105 | hands the event over, or drops it when the client has stopped |
| WatcherObjects.UserProjectWatcher.SendError | pkg/project/auth/watch.go:128-132 | the complaint reaches cacheError once |
| WatcherObjects.UserProjectWatcher.CanPerform | pkg/project/auth/watch.go:171-213 | a step is possible for the object exactly when it is in the model, where enough are for `NoWatchHangs` |
| WatcherObjects.ObjectCanGoOn | pkg/project/auth/watch.go:180-210 | an object that neither overflowed nor was stopped can emit its next initial project, take up what is queued, or have delivered what it sends, until its client has everything |
| WatcherObjects.UserProjectWatcher.Perform | pkg/project/auth/watch.go:171-213 | and performing it is the model's step |
| WatcherObjects.UserProjectWatcher.Stop | pkg/project/auth/watch.go:231-243 | closes once, again without effect |
| AuthorizationCaches.AuthorizationCache.constructor | pkg/project/auth/cache.go:152-185 | a new cache is empty, has no watchers, is in the initial state and consists of new objects only |
| AuthorizationCaches.AuthorizationCache.AddWatcher | pkg/project/auth/cache.go:192-197 | appends the watcher and keeps the cache valid |
| AuthorizationCaches.AuthorizationCache.RemoveWatcher | pkg/project/auth/cache.go:199-214 | removes the first occurrence, keeps the order of the rest and keeps the cache valid |
| AuthorizationCaches.AuthorizationCache.NotifyWatchers | pkg/project/auth/cache.go:535-541 | tells every watcher in turn as far as the first full queue |
| AuthorizationCaches.AuthorizationCache.SyncRequest | pkg/project/auth/cache.go:366-425 | skipped or failed, it changes nothing; otherwise stores and watchers take the review |
| AuthorizationCaches.AuthorizationCache.SyncEach | pkg/project/auth/cache.go:217-272 | one listing's requests worked off in order, as far as the first full queue |
| AuthorizationCaches.AuthorizationCache.SynchronizeAll | pkg/project/auth/cache.go:347-350 | the requests of the three listings worked off in order, as far as the first full queue |
| AuthorizationCaches.AuthorizationCache.PurgeDeletedNamespaces | pkg/project/auth/cache.go:274-288 | stores are purged, and each namespace known before and gone now is announced with empty sets |
| AuthorizationCaches.AuthorizationCache.InvalidateCache | pkg/project/auth/cache.go:291-324 | with sets as shared heap objects, answers and records what the change detector's function says |
| AuthorizationCaches.AuthorizationCache.Rebuild | pkg/project/auth/cache.go:339-352 | a rebuild leaves every published object unchanged and returns stores made of new objects only |
| AuthorizationCaches.AuthorizationCache.Synchronize | pkg/project/auth/cache.go:327-363 | the object reaches the model's next state and tells its watchers exactly the model's notes; a skipped one does nothing; a rebuild writes no published object and swaps in new ones only; the stores grow by new objects only |
| AuthorizationCaches.AuthorizationCache.CollectNames | pkg/project/auth/cache.go:428-443 | collects the names recorded for the user and each group |
| AuthorizationCaches.AuthorizationCache.List | pkg/project/auth/cache.go:428-459 | answers each indexed namespace the lister finds, once, skipping those not found, or the error of a lookup that fails otherwise |
| AuthorizationCaches.AuthorizationCache.Watch | pkg/project/auth/watch.go:73-107 | a watcher made from what List answers is registered in its initial state and the cache stays valid; when List fails, with its error, none is made |
| ObjectRuns.SynchronizeStep | pkg/project/auth/cache.go:327-363 | synchronizing the objects is a synchronization step of the model, stuck or not, for cache and watchers together |
| ObjectRuns.WatchStep | pkg/project/registry/project/storage.go:85-105 | beginning a watch with the lister as at the last synchronization is a registration step of the model |
| ObjectRuns.RemoveStep | pkg/project/auth/cache.go:199-214 | removing a watcher is a removal step of the model |
| ObjectRuns.ActStep | pkg/project/auth/watch.go:171-213 | a step of a watcher's goroutine or client is an activity step of the model |
| ObjectRuns.Run | pkg/project/auth/cache.go:187-190 | over any sequence of informer states cache and watchers go through the states of a run of the model; unless stuck the cache is where the model's own run ends |
| ObjectRuns.RunFromTheStart | pkg/project/auth/cache.go:152-190 | a cache run from its creation on, without watchers, never gets stuck and is where the model's run ends |
| ObjectRuns.Serve | pkg/project/registry/project/storage.go:85-105 | from creation on, given any sequence of synchronizations, watches, removals and watcher or client steps, the objects go through the run of the model that takes exactly the steps these amount to, all of them unless a full queue ends it |
| ObjectRuns.ObeysWorlds | pkg/project/auth/cache.go:187-190 | such a run synchronizes with exactly the worlds of the commands, in order |
| ObjectRuns.ObjectsKnowTheRbacDecision | pkg/project/auth/watch.go:109-167 | if the commands' synchronizations keep the index current and Get always matches List, each registered watcher object of all namespaces knows, and its client arrives by replaying at, exactly those RBAC or privilege lets its user get |
| ObjectRuns.ServeAccountably | pkg/project/registry/project/storage.go:85-105 | the same for the objects Serve returns, with conditions on the commands alone |

## Left out

- RunStaysCurrent: assumes of the synchronizations since the last rebuild, beyond the loss condition, that an object version that is gone does not come back, because records remember versions until a rebuild (`ReturnIsMissed`); a one-step statement without any such condition is `SynchronizationIsCurrentIff`.
- WatchEqualsList: assumes that no synchronization lets a registered watcher and the index part in one of the two ways of `SyncKeepsInvariantIff`, and that Get finds what is indexed for a user when they register; a watcher is created and registered in one step, with the lister as at the last synchronization.
- NoTransientLoss: is about one store; for a user, whose access comes from two, the exact condition is `AccessIsKeptIff`.
- Synchronize: promises nothing about progress after a full queue, which leaves the source waiting for a lock it holds; the model's `stuck` cache takes no further step.
- Watch: when `List` fails the source goes on to dereference a nil list; the model answers the error and makes no watcher. The goroutine's selects appear as one method per arm and as a state machine over all interleavings, not as a loop.
- VisitRulesFor: the visitor is a function on a state value, since a method cannot be passed as one; `ruleAccumulator` is such a value.
- StoreSet: the three store fields are one object, swapped as a whole; the `sets.String` inside a subject record is a value, the record itself is a heap object. The purge's two loops, over records and over vanished namespaces, are two methods.
- SyncEach: the three listing loops share it; each listing's requests are built first, in listing order.
- Run: ends with the given informer states; the timer between synchronizations is left out.
- The result of the de-duplication loop of `AllowedSubjects`, which is never returned, so only sets of subjects are compared.
- A nil request in `skipReview`, which no caller passes; `neverSkipSynchronizer` and the unchanging versioner, which the server does not use.
- Errors of in-memory stores (`Get`, `Add`, key functions), which cannot occur for the objects stored.
- Informers, listers, clients, HTTP and start-up; logging, the high-water mark, timers and the polling loop of `Run`.
- Data races between `List` or `Watch` and the synchronizing goroutine: steps are atomic, with the points between single writes only where transient loss is the question.
- Conversion between projects and namespaces, strategies, validation, label and field filtering, project requests: easy members or library-bound.
- `SubjectsStrings`, `NewTestRuleResolver` and `StaticRoles`: display and test code.
