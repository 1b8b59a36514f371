/** What List could see while one review is written into both inverted stores. */
module UpdateMoments {
  import opened Common
  import opened RbacTypes
  import opened Reviewer
  import opened InvertedIndex
  import opened AccessIndex
  import opened Synchronization

  function WithUsers(ix: Index, points: seq<Inverted>): seq<Index> {
    seq(|points|, k requires 0 <= k < |points| => ix.(users := points[k]))
  }

  function WithGroups(ix: Index, points: seq<Inverted>): seq<Index> {
    seq(|points|, k requires 0 <= k < |points| => ix.(groups := points[k]))
  }

  /** The index once the namespace has left the users and groups it is stale for. */
  function Emptied(ix: Index, staleUsers: seq<string>, staleGroups: seq<string>, namespace: string): Index {
    ix.(users := DeleteAll(ix.users, Elements(staleUsers), namespace), groups :=
        DeleteAll(ix.groups, Elements(staleGroups), namespace))
  }

  /** The index after every single write: out of the stale users, out of the stale groups, into the
      reviewed users, into the reviewed groups. */
  function Moments(ix: Index, staleUsers: seq<string>, staleGroups: seq<string>, users: seq<string>,
      groups: seq<string>, namespace: string): seq<Index> {
    var emptied := Emptied(ix, staleUsers, staleGroups, namespace);
    WithUsers(ix, Trace(ix.users, DeleteWrites(staleUsers), namespace))
    + WithGroups(ix.(users := emptied.users), Trace(ix.groups, DeleteWrites(staleGroups), namespace))
    + WithUsers(emptied, Trace(emptied.users, AddWrites(users), namespace))
    + WithGroups(emptied.(users := AddAll(emptied.users, Elements(users), namespace)),
        Trace(emptied.groups, AddWrites(groups), namespace))
  }

  /** These are the subjects a review of the namespace finds to remove. */
  ghost predicate StaleFor(ix: Index, staleUsers: seq<string>, staleGroups: seq<string>, users: seq<string>,
      groups: seq<string>, namespace: string) {
    && Enumerates(staleUsers, Stale(UsersListed(ix.reviews), namespace, Elements(users)))
    && Enumerates(staleGroups, Stale(GroupsListed(ix.reviews), namespace, Elements(groups)))
  }

  /** `points` are the index after every write of the review, in some order of the removals. */
  ghost predicate AreMoments(ix: Index, users: seq<string>, groups: seq<string>, namespace: string,
      points: seq<Index>) {
    exists staleUsers, staleGroups | StaleFor(ix, staleUsers, staleGroups, users, groups, namespace) ::
      points == Moments(ix, staleUsers, staleGroups, users, groups, namespace)
  }

  // ---- each store on its own -------------------------------------------------------------------

  /** Both stores are between old and new. */
  ghost predicate BothBetween(ix: Index, users: set<string>, groups: set<string>, namespace: string, point: Index) {
    && Between(ix.users, UsersListed(ix.reviews), namespace, users, point.users)
    && Between(ix.groups, GroupsListed(ix.reviews), namespace, groups, point.groups)
    && point.reviews == ix.reviews
  }

  /** One store before, during and after its removals and additions. */
  lemma StoreStaysBetween(m: Inverted, listing: map<string, set<string>>, namespace: string, stale: seq<string>,
      subjects: seq<string>)
    requires InverseOf(m, listing) && Elements(stale) == Stale(listing, namespace, Elements(subjects))
    ensures Between(m, listing, namespace, Elements(subjects), m)
    ensures forall p | p in Trace(m, DeleteWrites(stale), namespace) ::
        Between(m, listing, namespace, Elements(subjects), p)
    ensures var emptied := DeleteAll(m, Elements(stale), namespace);
      && Between(m, listing, namespace, Elements(subjects), emptied)
      && Under(emptied, namespace) == ListedFor(listing, namespace) * Elements(subjects)
      && (forall p | p in Trace(emptied, AddWrites(subjects), namespace) ::
          Between(m, listing, namespace, Elements(subjects), p))
      && Between(m, listing, namespace, Elements(subjects), AddAll(emptied, Elements(subjects), namespace))
  {
    var emptied := DeleteAll(m, Elements(stale), namespace);
    var first, second := Trace(m, DeleteWrites(stale), namespace), Trace(emptied, AddWrites(subjects), namespace);
    TracesCompose(m, stale, subjects, namespace, first, second);
    NoTransientLoss(m, listing, namespace, stale, subjects, first + second);
    forall p | p in first || p in second ensures Between(m, listing, namespace, Elements(subjects), p) {
      assert p in first + second;
    }
    UnderIsListed(m, listing, namespace);
    EndsAreBetween(m, listing, namespace, Elements(stale), Elements(subjects));
  }

  lemma EndsAreBetween(m: Inverted, listing: map<string, set<string>>, namespace: string, stale: set<string>,
      subjects: set<string>)
    requires InverseOf(m, listing) && stale == Stale(listing, namespace, subjects)
    requires Under(m, namespace) == ListedFor(listing, namespace)
    ensures var emptied := DeleteAll(m, stale, namespace);
      && Between(m, listing, namespace, subjects, emptied)
      && Under(emptied, namespace) == ListedFor(listing, namespace) * subjects
      && Between(m, listing, namespace, subjects, AddAll(emptied, subjects, namespace))
  {
    var emptied := DeleteAll(m, stale, namespace);
    var filled := AddAll(emptied, subjects, namespace);
    assert forall s :: Has(m, s, namespace) <==> s in Under(m, namespace);
    forall s, n | n != namespace ensures Has(emptied, s, n) <==> Has(m, s, n) {
      assert Has(m, s, n) ==> n in m[s] - {namespace};
    }
    forall s, n | n != namespace ensures Has(filled, s, n) <==> Has(emptied, s, n) {
    }
  }

  /** Subject by subject there is no transient loss in either store. */
  lemma MomentsStayBetween(ix: Index, users: seq<string>, groups: seq<string>, namespace: string, points: seq<Index>)
    requires Consistent(ix) && AreMoments(ix, users, groups, namespace, points)
    ensures forall point | point in points :: BothBetween(ix, Elements(users), Elements(groups), namespace, point)
  {
    var staleUsers, staleGroups :| StaleFor(ix, staleUsers, staleGroups, users, groups, namespace) &&
      points == Moments(ix, staleUsers, staleGroups, users, groups, namespace);
    var emptied := Emptied(ix, staleUsers, staleGroups, namespace);
    StoreStaysBetween(ix.users, UsersListed(ix.reviews), namespace, staleUsers, users);
    StoreStaysBetween(ix.groups, GroupsListed(ix.reviews), namespace, staleGroups, groups);
    UsersVary(ix, Elements(users), Elements(groups), namespace, ix,
        Trace(ix.users, DeleteWrites(staleUsers), namespace));
    GroupsVary(ix, Elements(users), Elements(groups), namespace, ix.(users := emptied.users),
        Trace(ix.groups, DeleteWrites(staleGroups), namespace));
    UsersVary(ix, Elements(users), Elements(groups), namespace, emptied,
        Trace(emptied.users, AddWrites(users), namespace));
    GroupsVary(ix, Elements(users), Elements(groups), namespace,
        emptied.(users := AddAll(emptied.users, Elements(users), namespace)),
               Trace(emptied.groups, AddWrites(groups), namespace));
  }

  lemma UsersVary(ix: Index, users: set<string>, groups: set<string>, namespace: string, base: Index,
      points: seq<Inverted>)
    requires base.reviews == ix.reviews && Between(ix.groups, GroupsListed(ix.reviews), namespace, groups, base.groups)
    requires forall p | p in points :: Between(ix.users, UsersListed(ix.reviews), namespace, users, p)
    ensures forall point | point in WithUsers(base, points) :: BothBetween(ix, users, groups, namespace, point)
  {
    forall point | point in WithUsers(base, points) ensures BothBetween(ix, users, groups, namespace, point) {
      assert point.users in points;
    }
  }

  lemma GroupsVary(ix: Index, users: set<string>, groups: set<string>, namespace: string, base: Index,
      points: seq<Inverted>)
    requires base.reviews == ix.reviews && Between(ix.users, UsersListed(ix.reviews), namespace, users, base.users)
    requires forall p | p in points :: Between(ix.groups, GroupsListed(ix.reviews), namespace, groups, p)
    ensures forall point | point in WithGroups(base, points) :: BothBetween(ix, users, groups, namespace, point)
  {
    forall point | point in WithGroups(base, points) ensures BothBetween(ix, users, groups, namespace, point) {
      assert point.groups in points;
    }
  }

  // ---- a user, through both stores -------------------------------------------------------------

  /** List collects a namespace iff the user or one of their groups is indexed under it. */
  lemma IndexedIffUnder(ix: Index, user: UserInfo, n: string)
    ensures n in IndexedFor(ix, user) <==> HasAccess(user, Under(ix.users, n), Under(ix.groups, n))
  {
    assert n in GroupNames(ix, user.groups) <==> exists g | g in user.groups :: g in Under(ix.groups, n);
  }

  /** The user keeps access through a subject listed both before and after. */
  ghost predicate KeepsASubject(ix: Index, user: UserInfo, users: set<string>, groups: set<string>, n: string) {
    HasAccess(user, ListedFor(UsersListed(ix.reviews), n) * users, ListedFor(GroupsListed(ix.reviews), n) * groups)
  }

  /** A user with access before and after a review has it at every moment in between exactly if some
      subject that gives it is listed both before and after. */
  lemma AccessIsKeptIff(ix: Index, users: seq<string>, groups: seq<string>, n: string, points: seq<Index>,
      user: UserInfo)
    requires Consistent(ix) && AreMoments(ix, users, groups, n, points)
    requires n in IndexedFor(ix, user)
    requires HasAccess(user, Elements(users), Elements(groups))
    ensures (forall point | point in points :: n in IndexedFor(point, user)) <==>
            KeepsASubject(ix, user, Elements(users), Elements(groups), n)
  {
    var staleUsers, staleGroups :| StaleFor(ix, staleUsers, staleGroups, users, groups, n) &&
      points == Moments(ix, staleUsers, staleGroups, users, groups, n);
    var emptied := Emptied(ix, staleUsers, staleGroups, n);
    if KeepsASubject(ix, user, Elements(users), Elements(groups), n) {
      MomentsStayBetween(ix, users, groups, n, points);
      forall point | point in points ensures n in IndexedFor(point, user) {
        KeptAtAPoint(ix, user, Elements(users), Elements(groups), n, point);
      }
    } else {
      StoreStaysBetween(ix.users, UsersListed(ix.reviews), n, staleUsers, users);
      StoreStaysBetween(ix.groups, GroupsListed(ix.reviews), n, staleGroups, groups);
      IndexedIffUnder(emptied, user, n);
      EmptiedIsAMoment(ix, staleUsers, staleGroups, users, groups, n);
    }
  }

  lemma KeptAtAPoint(ix: Index, user: UserInfo, users: set<string>, groups: set<string>, n: string, point: Index)
    requires BothBetween(ix, users, groups, n, point) && KeepsASubject(ix, user, users, groups, n)
    ensures n in IndexedFor(point, user)
  {
    IndexedIffUnder(point, user, n);
  }

  /** All removals come before any addition: the index passes through the moment with both done. */
  lemma EmptiedIsAMoment(ix: Index, staleUsers: seq<string>, staleGroups: seq<string>, users: seq<string>,
      groups: seq<string>, n: string)
    ensures var emptied := Emptied(ix, staleUsers, staleGroups, n);
      emptied == ix || emptied in Moments(ix, staleUsers, staleGroups, users, groups, n)
  {
    var emptied := Emptied(ix, staleUsers, staleGroups, n);
    var first, second := Trace(ix.users, DeleteWrites(staleUsers), n), Trace(ix.groups, DeleteWrites(staleGroups), n);
    LastPoint(ix.users, staleUsers, n);
    LastPoint(ix.groups, staleGroups, n);
    if staleGroups != [] {
      assert WithGroups(ix.(users := emptied.users), second)[|second| - 1] == emptied;
    } else if staleUsers != [] {
      assert WithUsers(ix, first)[|first| - 1] == emptied;
    }
  }

  lemma LastPoint(m: Inverted, stale: seq<string>, n: string)
    ensures stale == [] ==> DeleteAll(m, Elements(stale), n) == m
    ensures stale != [] ==>
              var points := Trace(m, DeleteWrites(stale), n);
              points != [] && points[|points| - 1] == DeleteAll(m, Elements(stale), n)
  {
    DeleteWritesAmountTo(m, stale, n);
    TraceLength(m, DeleteWrites(stale), n);
    if stale != [] {
      var writes := DeleteWrites(stale);
      TraceAt(m, writes, n, |writes| - 1);
      assert writes[..|writes|] == writes;
    }
  }

  /** Access can lapse: alice is bound herself before and through her team afterwards, and in between
      List does not find the namespace for her. */
  lemma AccessCanLapse() returns (ix: Index, groups: seq<string>, alice: UserInfo, points: seq<Index>)
    ensures Consistent(ix) && AreMoments(ix, [], groups, "dev", points)
    ensures "dev" in IndexedFor(ix, alice) && HasAccess(alice, {}, Elements(groups))
    ensures exists point | point in points :: "dev" !in IndexedFor(point, alice)
  {
    var record := ReviewRecord(ReviewRequest("dev", "1", map[], map[]), ["alice"], []);
    ix, groups, alice := Index(map["alice" := {"dev"}], map[], map["dev" := record]), ["team"],
        UserInfo("alice", ["team"]);
    AliceIsConsistent(ix, record);
    assert Stale(UsersListed(ix.reviews), "dev", {}) == {"alice"} == Elements(["alice"]);
    assert Stale(GroupsListed(ix.reviews), "dev", Elements(groups)) == {} == Elements<string>([]);
    points := Moments(ix, ["alice"], [], [], groups, "dev");
    assert StaleFor(ix, ["alice"], [], [], groups, "dev");
    assert "team" in Elements(groups);
    AccessIsKeptIff(ix, [], groups, "dev", points, alice);
  }

  lemma AliceIsConsistent(ix: Index, record: ReviewRecord)
    requires record == ReviewRecord(ReviewRequest("dev", "1", map[], map[]), ["alice"], [])
    requires ix == Index(map["alice" := {"dev"}], map[], map["dev" := record])
    ensures Consistent(ix)
  {
    assert UsersListed(ix.reviews)["dev"] == {"alice"} && GroupsListed(ix.reviews)["dev"] == {};
  }
}
