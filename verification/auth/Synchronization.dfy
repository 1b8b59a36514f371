/** One synchronization of the whole cache as a function of its state, and what List answers after it. */
module Synchronization {
  import opened Common
  import opened RbacTypes
  import opened PlainRbac
  import opened SubjectLocator
  import opened Reviewer
  import opened InvertedIndex
  import opened AccessIndex
  import opened Informers
  import opened ChangeDetector
  import opened SkipToken

  /** The fields of AuthorizationCache other than its watchers. */
  datatype CacheState = CacheState(index: Index, known: set<string>, lastState: string, recorded: Recorded)

  const NEW_CACHE := CacheState(EMPTY_INDEX, {}, "", NOTHING)

  predicate Skips(st: CacheState, w: World) {
    Token(w.versions) == st.lastState
  }

  function Detected(st: CacheState, w: World): Answer {
    Detect(st.recorded, CallOf(w.clusterRoles, w.clusterRoleBindings))
  }

  /** The index a synchronization starts from: its own, or an empty one when it rebuilds. */
  function Base(st: CacheState, w: World): Index {
    if Detected(st, w).invalidate then EMPTY_INDEX else st.index
  }

  /** The cache after a synchronization that is neither skipped nor stuck. */
  function CacheAfter(st: CacheState, w: World): CacheState {
    CacheState(Refresh(Base(st, w), w), Listed(w), Token(w.versions), Detected(st, w).recorded)
  }

  /** Nobody has access any more. */
  function GoneNote(namespace: string): Note {
    Note(namespace, {}, {})
  }

  function GoneNotes(purged: seq<string>): seq<Note> {
    seq(|purged|, i requires 0 <= i < |purged| => GoneNote(purged[i]))
  }

  /** Everything a synchronization announces; `purged` is the order in which vanished namespaces come up. */
  function NotesOf(st: CacheState, w: World, purged: seq<string>): seq<Note> {
    SyncAll(w.evaluator, Base(st, w), Requests(w)).notes + GoneNotes(purged)
  }

  lemma EmptyIndexIsConsistent()
    ensures Consistent(EMPTY_INDEX)
  {
  }

  /** The inverse-index invariant survives every synchronization, with any listing, lookup or review
      failing, and afterwards every indexed namespace is a listed one. */
  lemma SynchronizationKeepsInvariant(st: CacheState, w: World)
    requires Consistent(st.index)
    ensures var st' := CacheAfter(st, w);
      && Consistent(st'.index)
      && st'.index.reviews.Keys <= st'.known
      && (forall s, n | Has(st'.index.users, s, n) || Has(st'.index.groups, s, n) :: n in st'.known)
  {
    EmptyIndexIsConsistent();
    SyncAllKeepsConsistent(w.evaluator, Base(st, w), Requests(w));
    PurgeKeepsConsistent(SyncAll(w.evaluator, Base(st, w), Requests(w)).index, Listed(w));
  }

  /** The cache after one synchronization, skipped or not, that is not stuck. */
  function CacheNext(st: CacheState, w: World): CacheState {
    if Skips(st, w) then st else CacheAfter(st, w)
  }

  /** The cache after a run from its creation on, one state of the informers for each synchronization. */
  ghost function CacheAfterAll(worlds: seq<World>): CacheState {
    if worlds == [] then NEW_CACHE else CacheNext(CacheAfterAll(worlds[..|worlds| - 1]), worlds[|worlds| - 1])
  }

  /** The same over any run: whatever the informers held, and failed at, each time. */
  lemma {:induction false} EveryReachableIndexIsConsistent(worlds: seq<World>)
    ensures var st := CacheAfterAll(worlds);
      && Consistent(st.index)
      && (forall s, n | Has(st.index.users, s, n) || Has(st.index.groups, s, n) :: n in st.known)
  {
    if worlds == [] {
      EmptyIndexIsConsistent();
    } else {
      EveryReachableIndexIsConsistent(worlds[..|worlds| - 1]);
      SynchronizationKeepsInvariant(CacheAfterAll(worlds[..|worlds| - 1]), worlds[|worlds| - 1]);
    }
  }

  /** ReadyForAccess */
  predicate ReadyForAccess(st: CacheState) {
    |st.lastState| > 0
  }

  /** The first synchronization is never skipped, and from the first completed one on the cache stays ready. */
  lemma {:induction false} ReadyFromTheFirstSync(worlds: seq<World>)
    ensures forall w :: !Skips(NEW_CACHE, w)
    ensures ReadyForAccess(CacheAfterAll(worlds)) <==> worlds != []
  {
    forall w: World ensures !Skips(NEW_CACHE, w) { TokenIs(w.versions); }
    if worlds != [] {
      ReadyFromTheFirstSync(worlds[..|worlds| - 1]);
      TokenIs(worlds[|worlds| - 1].versions);
    }
  }

  /** When the namespace listing fails, a synchronization forgets every namespace and still records the
      versions as seen, so nothing is looked at again until one of them changes. */
  lemma FailedListingEmptiesTheIndex(st: CacheState, w: World)
    requires Consistent(st.index) && w.namespaces.Err?
    ensures var st' := CacheAfter(st, w); st'.index == EMPTY_INDEX && st'.known == {} && Skips(st', w)
  {
    SynchronizationKeepsInvariant(st, w);
    var ix := CacheAfter(st, w).index;
    InverseOfNothing(ix.users, UsersListed(ix.reviews));
    InverseOfNothing(ix.groups, GroupsListed(ix.reviews));
  }

  lemma InverseOfNothing(m: Inverted, listing: map<string, set<string>>)
    requires InverseOf(m, listing) && listing == map[]
    ensures m == map[]
  {
    InverseIsUnique(m, map[], listing);
  }

  // ---- List ------------------------------------------------------------------------------------

  /** The names List collects from the user's and the groups' records. */
  function IndexedFor(ix: Index, user: UserInfo): set<string> {
    (if user.name in ix.users then ix.users[user.name] else {}) + GroupNames(ix, user.groups)
  }

  function GroupNames(ix: Index, groups: seq<string>): set<string> {
    set g, n | g in groups && g in ix.groups && n in ix.groups[g] :: n
  }

  /** A subject is indexed under exactly the namespaces whose review gives them access. */
  lemma IndexedIffReviewed(ix: Index, user: UserInfo, n: string)
    requires Consistent(ix)
    ensures n in IndexedFor(ix, user) <==>
            n in ix.reviews && HasAccess(user, Elements(ix.reviews[n].users), Elements(ix.reviews[n].groups))
  {
    assert Has(ix.users, user.name, n) <==> Has(UsersListed(ix.reviews), n, user.name);
    forall g ensures Has(ix.groups, g, n) <==> Has(GroupsListed(ix.reviews), n, g) {
    }
    assert (exists g | g in user.groups :: Has(ix.groups, g, n)) <==>
        (exists g | g in user.groups :: Has(GroupsListed(ix.reviews), n, g));
    assert n in GroupNames(ix, user.groups) <==> exists g | g in user.groups :: Has(ix.groups, g, n);
  }

  /** List's answer: the error of a lookup that fails otherwise than by NotFound; else each indexed
      namespace the lister still finds, once, in an unspecified order. */
  ghost predicate ListAnswer(ix: Index, w: World, user: UserInfo, answer: Result<seq<Namespace>, Error>) {
    match answer
    case Err(error) => exists n | n in IndexedFor(ix, user) :: w.getNamespace(n) == Failed(error)
    case Ok(items) => LookedUp(w, IndexedFor(ix, user), items)
  }

  /** `items` are the namespaces the lister finds under `names`, each once, no lookup failing otherwise. */
  ghost predicate LookedUp(w: World, names: set<string>, items: seq<Namespace>) {
    && (forall n | n in names :: !w.getNamespace(n).Failed?)
    && (forall i, j | 0 <= i < j < |items| :: items[i].name != items[j].name)
    && (forall ns | ns in items :: ns.name in names && w.getNamespace(ns.name) == Found(ns.resourceVersion))
    && (forall n | n in names && w.getNamespace(n).Found? :: n in Names(items))
  }

  lemma LookUpOneMore(w: World, names: set<string>, items: seq<Namespace>, name: string)
    requires LookedUp(w, names, items) && name !in names
    ensures w.getNamespace(name).NotFound? ==> LookedUp(w, names + {name}, items)
    ensures w.getNamespace(name).Found? ==>
              LookedUp(w, names + {name}, items + [Namespace(name, w.getNamespace(name).resourceVersion)])
  {
    if w.getNamespace(name).Found? {
      var found := Namespace(name, w.getNamespace(name).resourceVersion);
      assert forall ns :: ns in items + [found] <==> ns in items || ns == found;
    }
  }

  function Names(items: seq<Namespace>): set<string> {
    set ns | ns in items :: ns.name
  }

  /** The record lists the user, or a group the user is in. */
  ghost predicate OnRecordFor(ix: Index, user: UserInfo, n: string) {
    && n in ix.reviews
    && (user.name in ix.reviews[n].users || exists g :: g in user.groups && g in ix.reviews[n].groups)
  }

  /** List fails iff a lookup under a record that lists the user, or a group of theirs, fails otherwise than by
      NotFound; it then answers such a failure. Else it answers exactly what is found under such records. */
  lemma ListAnswersRecords(ix: Index, w: World, user: UserInfo, answer: Result<seq<Namespace>, Error>)
    requires Consistent(ix) && ListAnswer(ix, w, user, answer)
    ensures answer.Err? <==> exists n | OnRecordFor(ix, user, n) :: w.getNamespace(n).Failed?
    ensures answer.Err? ==> exists n | OnRecordFor(ix, user, n) :: w.getNamespace(n) == Failed(answer.error)
    ensures answer.Ok? ==> forall ns: Namespace :: ns in answer.value <==>
              OnRecordFor(ix, user, ns.name) && w.getNamespace(ns.name) == Found(ns.resourceVersion)
  {
    forall n ensures OnRecordFor(ix, user, n) <==> n in IndexedFor(ix, user) {
      IndexedIffReviewed(ix, user, n);
    }
    if answer.Ok? {
      forall ns: Namespace | ns.name in IndexedFor(ix, user) && w.getNamespace(ns.name) == Found(ns.resourceVersion)
        ensures ns in answer.value
      {
        var item :| item in answer.value && item.name == ns.name;
      }
    }
  }

  // ---- end to end ------------------------------------------------------------------------------

  /** The index shows, for each listed namespace that can be reviewed and no other, its current review. */
  ghost predicate Current(ix: Index, w: World) {
    Consistent(ix) && ReviewsCurrent(ix.reviews, w)
  }

  ghost predicate ReviewsCurrent(reviews: map<string, ReviewRecord>, w: World) {
    && (forall n :: n in reviews <==> n in Listed(w) && Review(w.evaluator, n).Ok?)
    && (forall n | n in reviews :: Shows(reviews[n], w.evaluator, n))
  }

  lemma ListedIsTriggered(ix: Index, w: World, n: string)
    requires n in Listed(w) && n !in ix.reviews
    ensures Triggered(ix, Requests(w), n)
  {
    var ns :| ns in w.namespaces.value && ns.name == n;
    NamespaceIsRequested(w, ns);
    assert !SkipReview(NamespaceRequest(ns), LastKnown(ix.reviews, n));
  }

  /** A rebuild leaves a current index, whatever fails. */
  lemma RebuildIsCurrent(w: World)
    ensures Current(Refresh(EMPTY_INDEX, w), w)
  {
    EmptyIndexIsConsistent();
    SyncAllKeepsConsistent(w.evaluator, EMPTY_INDEX, Requests(w));
    var ix := SyncAll(w.evaluator, EMPTY_INDEX, Requests(w)).index;
    PurgeKeepsConsistent(ix, Listed(w));
    forall n ensures n in ix.reviews ==> Shows(ix.reviews[n], w.evaluator, n)
             ensures n in Listed(w) ==> (n in ix.reviews <==> Review(w.evaluator, n).Ok?)
    {
      PassEffect(w.evaluator, EMPTY_INDEX, Requests(w), n);
      assert n !in EMPTY_INDEX.reviews;
      if n in Listed(w) {
        ListedIsTriggered(EMPTY_INDEX, w, n);
      }
    }
  }

  /** The answer to "may this user get this namespace?", over the policy's own objects. */
  ghost predicate MayGet(w: World, user: UserInfo, n: string) {
    Exempt(w.evaluator.superUser, user) || UserMayGet(w.evaluator.policy, n, user)
  }

  /** A current index lists for a user exactly the listed namespaces whose review was free of errors and
      which RBAC lets the user get, provided cluster bindings qualify the ServiceAccounts they name. */
  lemma CurrentIndexDecides(ix: Index, w: World, user: UserInfo, n: string)
    requires Current(ix, w)
    requires ClusterSubjectsQualified(w.evaluator.policy, Action(n))
    ensures n in IndexedFor(ix, user) <==> n in Listed(w) && Review(w.evaluator, n).Ok? && MayGet(w, user, n)
  {
    IndexedIffReviewed(ix, user, n);
    ReviewDecides(w.evaluator, n, user);
  }

  /** The answer RBAC would give: each listed namespace once, as listed, that can be reviewed and that the
      user may get. */
  ghost predicate RbacAnswer(w: World, user: UserInfo, answer: Result<seq<Namespace>, Error>) {
    && answer.Ok?
    && (forall i, j | 0 <= i < j < |answer.value| :: answer.value[i].name != answer.value[j].name)
    && (forall ns :: ns in answer.value <==>
          w.namespaces.Ok? && ns in w.namespaces.value && Review(w.evaluator, ns.name).Ok? && MayGet(w, user, ns.name))
  }

  /** With no lister error, what List answers from a current index is what RBAC would answer. */
  lemma CurrentIndexAnswers(ix: Index, w: World, user: UserInfo, answer: Result<seq<Namespace>, Error>)
    requires Current(ix, w) && NamesAgree(w)
    requires forall n | n in Listed(w) :: ClusterSubjectsQualified(w.evaluator.policy, Action(n))
    requires ListAnswer(ix, w, user, answer)
    ensures RbacAnswer(w, user, answer)
  {
    CurrentIndexIsFound(ix, w, user);
    forall n | n in Listed(w)
      ensures n in IndexedFor(ix, user) <==> Review(w.evaluator, n).Ok? && MayGet(w, user, n)
    {
      CurrentIndexDecides(ix, w, user, n);
    }
    forall ns | ns in answer.value ensures w.namespaces.Ok? && ns in w.namespaces.value {
      var listed :| listed in w.namespaces.value && listed.name == ns.name;
    }
    forall ns | w.namespaces.Ok? && ns in w.namespaces.value && Review(w.evaluator, ns.name).Ok? &&
        MayGet(w, user, ns.name)
      ensures ns in answer.value
    {
      assert ns.name in Names(answer.value);
      var found :| found in answer.value && found.name == ns.name;
    }
  }

  /** End to end: after a synchronization that rebuilt, with no lister error, List answers each
      namespace that RBAC lets the user get, and nothing else. */
  lemma ListIsTheRbacDecision(st: CacheState, w: World, user: UserInfo, answer: Result<seq<Namespace>, Error>)
    requires NamesAgree(w) && Detected(st, w).invalidate
    requires forall n | n in Listed(w) :: ClusterSubjectsQualified(w.evaluator.policy, Action(n))
    requires ListAnswer(CacheAfter(st, w).index, w, user, answer)
    ensures RbacAnswer(w, user, answer)
  {
    RebuildIsCurrent(w);
    CurrentIndexAnswers(CacheAfter(st, w).index, w, user, answer);
  }

  lemma CurrentIndexIsFound(ix: Index, w: World, user: UserInfo)
    requires Current(ix, w) && NamesAgree(w)
    ensures forall n | n in IndexedFor(ix, user) :: n in Listed(w) && w.getNamespace(n).Found?
  {
    forall n | n in IndexedFor(ix, user) ensures n in Listed(w) && w.getNamespace(n).Found? {
      IndexedIffReviewed(ix, user, n);
      var ns :| ns in w.namespaces.value && ns.name == n;
    }
  }
}
