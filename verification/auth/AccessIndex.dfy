/** The cache's three stores as one value, and what review requests do to them. */
module AccessIndex {
  import opened Common
  import opened SubjectLocator
  import opened Reviewer
  import opened InvertedIndex

  /** reviewRequest: a namespace and the resource versions observed to ask about it. */
  datatype ReviewRequest = ReviewRequest(
    namespace: string,
    namespaceVersion: string,
    roles: map<string, string>,
    bindings: map<string, string>)

  /** reviewRecord: the merged requests behind the last review, and who it allowed. */
  datatype ReviewRecord = ReviewRecord(request: ReviewRequest, users: seq<string>, groups: seq<string>)

  datatype Index = Index(users: Inverted, groups: Inverted, reviews: map<string, ReviewRecord>)

  const EMPTY_INDEX := Index(map[], map[], map[])

  /** What a successful review tells the watchers. */
  datatype Note = Note(namespace: string, users: set<string>, groups: set<string>)

  datatype Synced = Synced(index: Index, notes: seq<Note>)

  // ---- skipReview and cacheReviewRecord --------------------------------------------------------

  function LastKnown(reviews: map<string, ReviewRecord>, namespace: string): Option<ReviewRecord> {
    if namespace in reviews then Some(reviews[namespace]) else None
  }

  predicate Observed(have: map<string, string>, want: map<string, string>) {
    forall uid | uid in want :: uid in have && have[uid] == want[uid]
  }

  predicate SkipReview(request: ReviewRequest, lastKnown: Option<ReviewRecord>) {
    match lastKnown
    case None => false
    case Some(last) =>
      && request.namespace == last.request.namespace
      && !(|request.namespaceVersion| > 0 && request.namespaceVersion != last.request.namespaceVersion)
      && Observed(last.request.bindings, request.bindings)
      && Observed(last.request.roles, request.roles)
  }

  function Merge(request: ReviewRequest, lastKnown: Option<ReviewRecord>, users: seq<string>,
      groups: seq<string>): ReviewRecord {
    var kept := if lastKnown.Some? then lastKnown.value.request else ReviewRequest("", "", map[], map[]);
    ReviewRecord(
      ReviewRequest(
        request.namespace,
        if |request.namespaceVersion| > 0 then request.namespaceVersion else kept.namespaceVersion,
        kept.roles + request.roles,
        kept.bindings + request.bindings),
      users, groups)
  }

  /** A review is skipped exactly when recording the request would change no version. */
  lemma SkipIffMergeChangesNothing(request: ReviewRequest, last: ReviewRecord)
    ensures SkipReview(request, Some(last)) <==> Merge(request, Some(last), last.users, last.groups) == last
  {
    var merged := Merge(request, Some(last), last.users, last.groups).request;
    if merged == last.request {
      assert Observed(merged.roles, request.roles) && Observed(merged.bindings, request.bindings);
    }
    if SkipReview(request, Some(last)) {
      assert merged.roles == last.request.roles;
      assert merged.bindings == last.request.bindings;
    }
  }

  // ---- the invariant ---------------------------------------------------------------------------

  function UsersListed(reviews: map<string, ReviewRecord>): map<string, set<string>> {
    map n | n in reviews :: Elements(reviews[n].users)
  }

  function GroupsListed(reviews: map<string, ReviewRecord>): map<string, set<string>> {
    map n | n in reviews :: Elements(reviews[n].groups)
  }

  /** The inverse-index invariant: a namespace is in a subject's record iff its review record lists the
      subject, no empty subject record survives, and review records sit under their own namespace. */
  ghost predicate Consistent(ix: Index) {
    && InverseOf(ix.users, UsersListed(ix.reviews))
    && InverseOf(ix.groups, GroupsListed(ix.reviews))
    && forall n | n in ix.reviews :: ix.reviews[n].request.namespace == n
  }

  // ---- syncRequest -----------------------------------------------------------------------------

  /** Replace what is known about one namespace by a fresh review. */
  function RecordReview(ix: Index, request: ReviewRequest, users: seq<string>, groups: seq<string>): Index {
    var n := request.namespace;
    Index(
      Replace(ix.users, UsersListed(ix.reviews), n, Elements(users)),
      Replace(ix.groups, GroupsListed(ix.reviews), n, Elements(groups)),
      ix.reviews[n := Merge(request, LastKnown(ix.reviews, n), users, groups)])
  }

  /** RecordReview, store by store. */
  lemma RecordReviewByStore(ix: Index, request: ReviewRequest, users: seq<string>, groups: seq<string>,
      staleUsers: set<string>, staleGroups: set<string>)
    requires var last := LastKnown(ix.reviews, request.namespace);
      && staleUsers == (if last.Some? then Elements(last.value.users) - Elements(users) else {})
      && staleGroups == (if last.Some? then Elements(last.value.groups) - Elements(groups) else {})
    ensures staleUsers == Stale(UsersListed(ix.reviews), request.namespace, Elements(users))
    ensures staleGroups == Stale(GroupsListed(ix.reviews), request.namespace, Elements(groups))
    ensures var n, ix' := request.namespace, RecordReview(ix, request, users, groups);
      && ix'.users == AddAll(DeleteAll(ix.users, staleUsers, n), Elements(users), n)
      && ix'.groups == AddAll(DeleteAll(ix.groups, staleGroups, n), Elements(groups), n)
      && ix'.reviews == ix.reviews[n := Merge(request, LastKnown(ix.reviews, n), users, groups)]
  {
    assert staleUsers == Stale(UsersListed(ix.reviews), request.namespace, Elements(users));
    assert staleGroups == Stale(GroupsListed(ix.reviews), request.namespace, Elements(groups));
  }

  function SyncRequest(e: Evaluator, ix: Index, request: ReviewRequest): Synced {
    var n := request.namespace;
    if SkipReview(request, LastKnown(ix.reviews, n)) then Synced(ix, [])
    else
      match Review(e, n)
      case Err(_) => Synced(ix, [])
      case Ok(subjects) =>
        var users, groups := FlatUsers(subjects, n), FlatGroups(subjects);
        Synced(RecordReview(ix, request, users, groups), [Note(n, Elements(users), Elements(groups))])
  }

  function SyncAll(e: Evaluator, ix: Index, requests: seq<ReviewRequest>): Synced {
    if requests == [] then Synced(ix, [])
    else
      var before := SyncAll(e, ix, requests[..|requests| - 1]);
      var after := SyncRequest(e, before.index, requests[|requests| - 1]);
      Synced(after.index, before.notes + after.notes)
  }

  /** purgeDeletedNamespaces: forget every reviewed namespace that is no longer listed. */
  function Purge(ix: Index, keep: set<string>): Index {
    Without(ix, ix.reviews.Keys - keep)
  }

  function Without(ix: Index, gone: set<string>): Index {
    Index(Forget(ix.users, gone), Forget(ix.groups, gone), ix.reviews - gone)
  }

  lemma WithoutNothing(ix: Index)
    requires Consistent(ix)
    ensures Without(ix, {}) == ix
  {
    ForgetNothing(ix.users, UsersListed(ix.reviews));
    ForgetNothing(ix.groups, GroupsListed(ix.reviews));
    assert ix.reviews - {} == ix.reviews;
  }

  /** Dropping one more namespace is deleting it from the subjects its record lists, and the record. */
  lemma WithoutOneMore(ix: Index, gone: set<string>, namespace: string)
    requires Consistent(ix) && namespace in ix.reviews && namespace !in gone
    ensures var part, whole, record := Without(ix, gone), Without(ix, gone + {namespace}), ix.reviews[namespace];
      && namespace in part.reviews && part.reviews[namespace] == record && record.request.namespace == namespace
      && DeleteAll(part.users, Elements(record.users), namespace) == whole.users
      && DeleteAll(part.groups, Elements(record.groups), namespace) == whole.groups
      && part.reviews - {namespace} == whole.reviews
  {
    ForgetOneMore(ix.users, UsersListed(ix.reviews), gone, namespace);
    ForgetOneMore(ix.groups, GroupsListed(ix.reviews), gone, namespace);
    assert ix.reviews - gone - {namespace} == ix.reviews - (gone + {namespace});
  }

  // ---- preservation ----------------------------------------------------------------------------

  lemma RecordReviewKeepsConsistent(ix: Index, request: ReviewRequest, users: seq<string>, groups: seq<string>)
    requires Consistent(ix)
    ensures Consistent(RecordReview(ix, request, users, groups))
  {
    var n := request.namespace;
    ReplaceKeepsInverse(ix.users, UsersListed(ix.reviews), n, Elements(users));
    ReplaceKeepsInverse(ix.groups, GroupsListed(ix.reviews), n, Elements(groups));
    ListedWith(ix.reviews, n, Merge(request, LastKnown(ix.reviews, n), users, groups));
  }

  lemma ListedWith(reviews: map<string, ReviewRecord>, n: string, record: ReviewRecord)
    ensures UsersListed(reviews[n := record]) == UsersListed(reviews)[n := Elements(record.users)]
    ensures GroupsListed(reviews[n := record]) == GroupsListed(reviews)[n := Elements(record.groups)]
  {
  }

  /** Any sequence of requests, with whatever reviews failing, keeps the index consistent. */
  lemma {:induction false} SyncAllKeepsConsistent(e: Evaluator, ix: Index, requests: seq<ReviewRequest>)
    requires Consistent(ix)
    ensures Consistent(SyncAll(e, ix, requests).index)
  {
    if requests != [] {
      var init, last := requests[..|requests| - 1], requests[|requests| - 1];
      SyncAllKeepsConsistent(e, ix, init);
      var review := Review(e, last.namespace);
      if review.Ok? {
        RecordReviewKeepsConsistent(SyncAll(e, ix, init).index, last, FlatUsers(review.value, last.namespace),
            FlatGroups(review.value));
      }
    }
  }

  /** Purging keeps the index consistent and leaves only listed namespaces in it. */
  lemma PurgeKeepsConsistent(ix: Index, keep: set<string>)
    requires Consistent(ix)
    ensures Consistent(Purge(ix, keep))
    ensures Purge(ix, keep).reviews.Keys == ix.reviews.Keys * keep
    ensures forall s, n | Has(Purge(ix, keep).users, s, n) || Has(Purge(ix, keep).groups, s, n) :: n in keep
  {
    var ix', gone := Purge(ix, keep), ix.reviews.Keys - keep;
    ForgetKeepsInverse(ix.users, UsersListed(ix.reviews), gone);
    ForgetKeepsInverse(ix.groups, GroupsListed(ix.reviews), gone);
    assert UsersListed(ix'.reviews) == UsersListed(ix.reviews) - gone;
    assert GroupsListed(ix'.reviews) == GroupsListed(ix.reviews) - gone;
    forall s, n | Has(ix'.users, s, n) || Has(ix'.groups, s, n) ensures n in keep {
      assert Has(ix'.users, s, n) ==> Has(UsersListed(ix'.reviews), n, s);
      assert Has(ix'.groups, s, n) ==> Has(GroupsListed(ix'.reviews), n, s);
    }
  }

  // ---- what a pass does to one namespace -------------------------------------------------------

  /** Some request about `n` is not satisfied by what was known when the pass began. */
  ghost predicate Triggered(ix: Index, requests: seq<ReviewRequest>, n: string) {
    exists r | r in requests :: r.namespace == n && !SkipReview(r, LastKnown(ix.reviews, n))
  }

  /** A pass reviews `n` successfully. */
  ghost predicate Reviewed(e: Evaluator, ix: Index, requests: seq<ReviewRequest>, n: string) {
    Triggered(ix, requests, n) && Review(e, n).Ok?
  }

  ghost predicate Shows(record: ReviewRecord, e: Evaluator, n: string) {
    Elements(record.users) == ReviewedUsers(e, n) && Elements(record.groups) == ReviewedGroups(e, n)
  }

  function ReviewNote(e: Evaluator, n: string): Note {
    Note(n, ReviewedUsers(e, n), ReviewedGroups(e, n))
  }

  /** Where a pass stands with one namespace: reviewed, showing its current review and announced with
      nothing else; or not reviewed, as it was known before the pass and not announced. */
  ghost predicate Outcome(e: Evaluator, known: Option<ReviewRecord>, r: Synced, n: string, reviewed: bool) {
    && (reviewed ==> n in r.index.reviews && Shows(r.index.reviews[n], e, n) && ReviewNote(e, n) in r.notes)
    && (!reviewed ==> LastKnown(r.index.reviews, n) == known && forall note | note in r.notes :: note.namespace != n)
    && (forall note | note in r.notes && note.namespace == n :: note == ReviewNote(e, n))
  }

  lemma RequestOutcome(e: Evaluator, known: Option<ReviewRecord>, before: Synced, request: ReviewRequest, n: string,
      reviewed: bool)
    requires Outcome(e, known, before, n, reviewed)
    ensures var after := SyncRequest(e, before.index, request);
      Outcome(e, known, Synced(after.index, before.notes + after.notes), n,
              reviewed || (request.namespace == n && !SkipReview(request, known) && Review(e, n).Ok?))
  {
    var after := SyncRequest(e, before.index, request);
    assert forall note :: note in before.notes + after.notes <==> note in before.notes || note in after.notes;
  }

  /** A pass over any requests: a reviewed namespace ends up showing its current review and is announced
      with it, however many requests it takes; any other namespace keeps its record and is not announced. */
  lemma {:induction false} PassEffect(e: Evaluator, ix: Index, requests: seq<ReviewRequest>, n: string)
    ensures Outcome(e, LastKnown(ix.reviews, n), SyncAll(e, ix, requests), n, Reviewed(e, ix, requests, n))
  {
    if requests != [] {
      var init, last := requests[..|requests| - 1], requests[|requests| - 1];
      PassEffect(e, ix, init, n);
      assert forall r :: r in requests <==> r in init || r == last;
      RequestOutcome(e, LastKnown(ix.reviews, n), SyncAll(e, ix, init), last, n, Reviewed(e, ix, init, n));
    }
  }

  // ---- version coverage ------------------------------------------------------------------------

  ghost predicate Agree(a: map<string, string>, b: map<string, string>) {
    forall uid | uid in a && uid in b :: a[uid] == b[uid]
  }

  /** Two requests about one namespace do not carry different versions of the same object. */
  ghost predicate Compatible(a: ReviewRequest, b: ReviewRequest) {
    && (|a.namespaceVersion| > 0 && |b.namespaceVersion| > 0 ==> a.namespaceVersion == b.namespaceVersion)
    && Agree(a.roles, b.roles)
    && Agree(a.bindings, b.bindings)
  }

  ghost predicate AllCompatible(requests: seq<ReviewRequest>) {
    forall a, b | a in requests && b in requests && a.namespace == b.namespace :: Compatible(a, b)
  }

  lemma MergeKeepsCoverage(a: ReviewRequest, b: ReviewRequest, last: ReviewRecord, users: seq<string>,
      groups: seq<string>)
    requires a.namespace == b.namespace && Compatible(a, b) && SkipReview(a, Some(last))
    ensures SkipReview(a, Some(Merge(b, Some(last), users, groups)))
  {
  }

  lemma MergeCovers(a: ReviewRequest, lastKnown: Option<ReviewRecord>, users: seq<string>, groups: seq<string>)
    ensures SkipReview(a, Some(Merge(a, lastKnown, users, groups)))
  {
  }

  /** After a pass, the record of a namespace whose review succeeds covers every request made about it. */
  lemma {:induction false} PassCovers(e: Evaluator, ix: Index, requests: seq<ReviewRequest>, n: string)
    requires AllCompatible(requests) && Review(e, n).Ok?
    ensures forall r | r in requests && r.namespace == n ::
        SkipReview(r, LastKnown(SyncAll(e, ix, requests).index.reviews, n))
  {
    if requests != [] {
      var init, last := requests[..|requests| - 1], requests[|requests| - 1];
      assert forall r | r in init :: r in requests;
      PassCovers(e, ix, init, n);
      var before := SyncAll(e, ix, init).index;
      assert last in requests;
      forall r | r in requests && r.namespace == n
          ensures SkipReview(r, LastKnown(SyncRequest(e, before, last).index.reviews, n)) {
        assert r in init || r == last;
        RequestKeepsCoverage(e, before, last, n, r);
      }
    }
  }

  lemma RequestKeepsCoverage(e: Evaluator, ix: Index, request: ReviewRequest, n: string, r: ReviewRequest)
    requires Review(e, n).Ok? && r.namespace == n && (request.namespace == n ==> Compatible(r, request))
    requires SkipReview(r, LastKnown(ix.reviews, n)) || r == request
    ensures SkipReview(r, LastKnown(SyncRequest(e, ix, request).index.reviews, n))
  {
    var known := LastKnown(ix.reviews, n);
    if request.namespace == n && !SkipReview(request, known) {
      var subjects := Review(e, n).value;
      var users, groups := FlatUsers(subjects, n), FlatGroups(subjects);
      if r == request {
        MergeCovers(request, known, users, groups);
      } else {
        MergeKeepsCoverage(r, request, known.value, users, groups);
      }
    }
  }

  /** A record does not forget what it covers, whatever compatible requests come. */
  lemma {:induction false} PassKeepsCoverage(e: Evaluator, ix: Index, requests: seq<ReviewRequest>, n: string,
      r: ReviewRequest)
    requires Review(e, n).Ok? && r.namespace == n && SkipReview(r, LastKnown(ix.reviews, n))
    requires forall request | request in requests && request.namespace == n :: Compatible(r, request)
    ensures SkipReview(r, LastKnown(SyncAll(e, ix, requests).index.reviews, n))
  {
    if requests != [] {
      var init, last := requests[..|requests| - 1], requests[|requests| - 1];
      assert last in requests && forall request | request in init :: request in requests;
      PassKeepsCoverage(e, ix, init, n, r);
      RequestKeepsCoverage(e, SyncAll(e, ix, init).index, last, n, r);
    }
  }

  /** After a pass, the record of a namespace whose review succeeds is at the one version its requests name,
      whatever they say of roles and bindings. */
  lemma {:induction false} PassRecordsVersion(e: Evaluator, ix: Index, requests: seq<ReviewRequest>, n: string,
      version: string)
    requires |version| > 0 && Review(e, n).Ok?
    requires forall r | r in requests && r.namespace == n :: r.namespaceVersion == "" || r.namespaceVersion == version
    requires exists r | r in requests :: r.namespace == n && r.namespaceVersion == version
    ensures AtVersion(LastKnown(SyncAll(e, ix, requests).index.reviews, n), version)
  {
    var init, last := requests[..|requests| - 1], requests[|requests| - 1];
    assert forall r | r in init :: r in requests;
    var before := SyncAll(e, ix, init).index;
    if !(last.namespace == n && last.namespaceVersion == version) {
      assert exists r | r in init :: r.namespace == n && r.namespaceVersion == version;
      PassRecordsVersion(e, ix, init, n, version);
    }
    assert last in requests;
    RequestRecordsVersion(e, before, last, n, version);
  }

  ghost predicate AtVersion(known: Option<ReviewRecord>, version: string) {
    known.Some? && known.value.request.namespaceVersion == version
  }

  lemma RequestRecordsVersion(e: Evaluator, ix: Index, request: ReviewRequest, n: string, version: string)
    requires |version| > 0 && Review(e, n).Ok?
    requires request.namespace == n ==> request.namespaceVersion == "" || request.namespaceVersion == version
    requires AtVersion(LastKnown(ix.reviews, n), version) ||
        (request.namespace == n && request.namespaceVersion == version)
    ensures AtVersion(LastKnown(SyncRequest(e, ix, request).index.reviews, n), version)
  {
  }

  /** A pass whose every request is already covered reviews nothing and announces nothing. */
  lemma {:induction false} CoveredPassIsQuiet(e: Evaluator, ix: Index, requests: seq<ReviewRequest>)
    requires forall r | r in requests :: SkipReview(r, LastKnown(ix.reviews, r.namespace))
    ensures SyncAll(e, ix, requests) == Synced(ix, [])
  {
    if requests != [] {
      assert forall r | r in requests[..|requests| - 1] :: r in requests;
      CoveredPassIsQuiet(e, ix, requests[..|requests| - 1]);
      assert requests[|requests| - 1] in requests;
    }
  }
}
