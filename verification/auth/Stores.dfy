/** The three stores a synchronization works on, updated in place. */
module Stores {
  import opened Common
  import opened InvertedIndex
  import opened RecordStores
  import opened AccessIndex
  import opened UpdateMoments

  /** A cache.Store keyed by reviewRecordKeyFn. Review records are never updated in place. */
  class ReviewStore {
    var records: map<string, ReviewRecord>

    constructor ()
      ensures records == map[]
    {
      records := map[];
    }

    method Add(record: ReviewRecord)
      modifies this
      ensures records == old(records)[record.request.namespace := record]
    {
      records := records[record.request.namespace := record];
    }

    method Delete(record: ReviewRecord)
      modifies this
      ensures records == old(records) - {record.request.namespace}
    {
      records := records - {record.request.namespace};
    }
  }

  /** Some enumeration of a set, as a Go map iteration gives one. */
  method Enumerate(x: set<string>) returns (s: seq<string>)
    ensures Enumerates(s, x)
  {
    s := [];
    var rest := x;
    while rest != {}
      invariant rest <= x && Elements(s) == x - rest
      invariant forall i, j :: 0 <= i < j < |s| ==> s[i] != s[j]
    {
      var e :| e in rest;
      assert e !in Elements(s) && Elements(s + [e]) == Elements(s) + {e};
      assert x - (rest - {e}) == (x - rest) + {e};
      rest := rest - {e};
      s := s + [e];
    }
  }

  /** userSubjectRecordStore, groupSubjectRecordStore and reviewRecordStore together. */
  class StoreSet {
    const users: SubjectStore
    const groups: SubjectStore
    const reviews: ReviewStore
    ghost var Repr: set<object>

    /** The stores are well-formed and share no record. */
    ghost predicate Valid()
      reads this, Repr
    {
      && this in Repr && users in Repr && groups in Repr && reviews in Repr
      && users != groups
      && users.Records() <= Repr && groups.Records() <= Repr && users.Records() !! groups.Records()
      && users.Valid() && groups.Valid()
    }

    /** The three stores as one value. */
    ghost function Contents(): Index
      reads users, groups, reviews
    {
      Index(users.Contents, groups.Contents, reviews.records)
    }

    constructor ()
      ensures Valid() && fresh(Repr) && Contents() == EMPTY_INDEX
    {
      users := new SubjectStore();
      groups := new SubjectStore();
      reviews := new ReviewStore();
      new;
      Repr := {this, users, groups, reviews};
    }

    /** Put a successful review in place of what was known about its namespace. */
    method ReplaceReview(request: ReviewRequest, newUsers: seq<string>, newGroups: seq<string>)
      requires Valid()
      modifies Repr
      ensures Valid() && fresh(Repr - old(Repr))
      ensures Contents() == RecordReview(old(Contents()), request, newUsers, newGroups)
    {
      var _ := ReplaceStepByStep(request, newUsers, newGroups);
    }

    /** ReplaceReview, write by write. `points` are the contents after each write to a subject record or
        store; each store of a consistent index is at all of them between old and new. */
    method ReplaceStepByStep(request: ReviewRequest, newUsers: seq<string>, newGroups: seq<string>)
        returns (ghost points: seq<Index>)
      requires Valid()
      modifies Repr
      ensures Valid() && fresh(Repr - old(Repr))
      ensures Contents() == RecordReview(old(Contents()), request, newUsers, newGroups)
      ensures AreMoments(old(Contents()), newUsers, newGroups, request.namespace, points)
      ensures old(Consistent(Contents())) ==>
                forall point | point in points ::
                  BothBetween(old(Contents()), Elements(newUsers), Elements(newGroups), request.namespace, point)
    {
      var lastKnown := LastKnown(reviews.records, request.namespace);
      var usersToRemove, groupsToRemove := {}, {};
      if lastKnown.Some? {
        usersToRemove := Elements(lastKnown.value.users) - Elements(newUsers);
        groupsToRemove := Elements(lastKnown.value.groups) - Elements(newGroups);
      }
      ghost var before := Contents();
      RecordReviewByStore(before, request, newUsers, newGroups, usersToRemove, groupsToRemove);
      points := UpdateSubjects(usersToRemove, groupsToRemove, newUsers, newGroups, request.namespace);
      if Consistent(before) {
        MomentsStayBetween(before, newUsers, newGroups, request.namespace, points);
      }
      reviews.Add(Merge(request, lastKnown, newUsers, newGroups));
    }

    /** Out of the users store, out of the groups store, into the one, into the other. */
    method UpdateSubjects(usersToRemove: set<string>, groupsToRemove: set<string>, newUsers: seq<string>,
        newGroups: seq<string>, namespace: string)
      returns (ghost points: seq<Index>)
      requires Valid()
      requires usersToRemove == Stale(UsersListed(reviews.records), namespace, Elements(newUsers))
      requires groupsToRemove == Stale(GroupsListed(reviews.records), namespace, Elements(newGroups))
      modifies Repr
      ensures Valid() && fresh(Repr - old(Repr)) && reviews.records == old(reviews.records)
      ensures users.Contents == AddAll(DeleteAll(old(users.Contents), usersToRemove, namespace), Elements(newUsers),
          namespace)
      ensures groups.Contents ==
          AddAll(DeleteAll(old(groups.Contents), groupsToRemove, namespace), Elements(newGroups), namespace)
      ensures AreMoments(old(Contents()), newUsers, newGroups, namespace, points)
    {
      ghost var before := Contents();
      var staleUsers := Enumerate(usersToRemove);
      var staleGroups := Enumerate(groupsToRemove);
      assert StaleFor(before, staleUsers, staleGroups, newUsers, newGroups, namespace);
      ghost var p1 := DeleteUsers(staleUsers, namespace);
      ghost var p2 := DeleteGroups(staleGroups, namespace);
      ghost var p3 := AddUsers(newUsers, namespace);
      ghost var filled := Contents();
      ghost var p4 := AddGroups(newGroups, namespace);
      ghost var emptied := Emptied(before, staleUsers, staleGroups, namespace);
      points := WithUsers(before, p1) + WithGroups(before.(users := emptied.users), p2) + WithUsers(emptied,
          p3) + WithGroups(filled, p4);
      assert points == Moments(before, staleUsers, staleGroups, newUsers, newGroups, namespace);
    }

    /** Delete one review record, and its namespace from the subjects it lists. */
    method DeleteReview(record: ReviewRecord)
      requires Valid()
      modifies Repr
      ensures Valid() && Repr == old(Repr)
      ensures var n, ix := record.request.namespace, old(Contents());
        Contents() == Index(DeleteAll(ix.users, Elements(record.users), n),
            DeleteAll(ix.groups, Elements(record.groups), n), ix.reviews - {n})
    {
      var _ := DeleteUsers(record.users, record.request.namespace);
      var _ := DeleteGroups(record.groups, record.request.namespace);
      reviews.Delete(record);
    }

    method DeleteUsers(subjects: seq<string>, namespace: string) returns (ghost points: seq<Inverted>)
      requires Valid()
      modifies Repr
      ensures Valid() && Repr == old(Repr)
      ensures users.Contents == DeleteAll(old(users.Contents), Elements(subjects), namespace)
      ensures groups.Contents == old(groups.Contents) && reviews.records == old(reviews.records)
      ensures points == Trace(old(users.Contents), DeleteWrites(subjects), namespace)
    {
      points := DeleteNamespaceFromSubjects(users, subjects, namespace);
    }

    method DeleteGroups(subjects: seq<string>, namespace: string) returns (ghost points: seq<Inverted>)
      requires Valid()
      modifies Repr
      ensures Valid() && Repr == old(Repr)
      ensures groups.Contents == DeleteAll(old(groups.Contents), Elements(subjects), namespace)
      ensures users.Contents == old(users.Contents) && reviews.records == old(reviews.records)
      ensures points == Trace(old(groups.Contents), DeleteWrites(subjects), namespace)
    {
      points := DeleteNamespaceFromSubjects(groups, subjects, namespace);
    }

    method AddUsers(subjects: seq<string>, namespace: string) returns (ghost points: seq<Inverted>)
      requires Valid()
      modifies Repr
      ensures Valid() && fresh(Repr - old(Repr))
      ensures users.Contents == AddAll(old(users.Contents), Elements(subjects), namespace)
      ensures groups.Contents == old(groups.Contents) && reviews.records == old(reviews.records)
      ensures points == Trace(old(users.Contents), AddWrites(subjects), namespace)
    {
      points := AddSubjectsToNamespace(users, subjects, namespace);
      Repr := Repr + users.Records();
    }

    method AddGroups(subjects: seq<string>, namespace: string) returns (ghost points: seq<Inverted>)
      requires Valid()
      modifies Repr
      ensures Valid() && fresh(Repr - old(Repr))
      ensures groups.Contents == AddAll(old(groups.Contents), Elements(subjects), namespace)
      ensures users.Contents == old(users.Contents) && reviews.records == old(reviews.records)
      ensures points == Trace(old(groups.Contents), AddWrites(subjects), namespace)
    {
      points := AddSubjectsToNamespace(groups, subjects, namespace);
      Repr := Repr + groups.Records();
    }

    /** purgeDeletedNamespaces, as far as the stores go. */
    method PurgeRecords(newNamespaces: set<string>)
      requires Valid() && Consistent(Contents())
      modifies Repr
      ensures Valid() && Repr == old(Repr)
      ensures Contents() == Purge(old(Contents()), newNamespaces)
    {
      ghost var start, gone := Contents(), {};
      WithoutNothing(start);
      var items := reviews.records;
      var todo := items.Keys;
      while todo != {}
        invariant Valid() && Repr == old(Repr)
        invariant todo <= items.Keys && start.reviews == items
        invariant gone == (items.Keys - todo) - newNamespaces
        invariant Contents() == Without(start, gone)
        decreases todo
      {
        var namespace :| namespace in todo;
        todo := todo - {namespace};
        if namespace !in newNamespaces {
          WithoutOneMore(start, gone, namespace);
          DeleteReview(items[namespace]);
          gone := gone + {namespace};
        }
      }
      assert gone == items.Keys - newNamespaces;
    }
  }
}
