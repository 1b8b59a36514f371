/** The inverted stores as heap objects: keyed stores of pointer-held subject records. */
module RecordStores {
  import opened Common
  import opened InvertedIndex

  /** subjectRecord: the namespaces one subject can access, updated in place. */
  class SubjectRecord {
    const subject: string
    var namespaces: set<string>

    constructor (subject: string)
      ensures this.subject == subject && namespaces == {}
    {
      this.subject := subject;
      namespaces := {};
    }
  }

  /** A cache.Store keyed by subjectRecordKeyFn, with what it holds as a value. */
  class SubjectStore {
    var items: map<string, SubjectRecord>
    ghost var Contents: Inverted

    /** Every record is stored under its own subject, and the records hold the contents. */
    ghost predicate Valid()
      reads this, Records()
    {
      && Contents.Keys == items.Keys
      && forall key | key in items :: items[key].subject == key && items[key].namespaces == Contents[key]
    }

    /** The records reachable from the store. */
    ghost function Records(): set<SubjectRecord>
      reads this
    {
      items.Values
    }

    constructor ()
      ensures Valid() && Records() == {} && Contents == map[]
    {
      items, Contents := map[], map[];
    }

    /** No two keys share a record object, so a write through one key never shows under another. */
    lemma KeysHoldDistinctRecords(a: string, b: string)
      requires Valid() && a in items && b in items && a != b
      ensures items[a] != items[b]
    {
    }

    /** The record of a subject, holding what the contents say, or null exactly if there is none. */
    function GetByKey(key: string): (r: SubjectRecord?)
      requires Valid()
      reads this, Records()
      ensures r == null <==> key !in Contents
      ensures r != null ==> r in Records() && r.subject == key && r.namespaces == Contents[key]
    {
      if key in items then items[key] else null
    }

    /** A record comes in, in place of any other record of its subject; the store stays well-formed. */
    method Add(record: SubjectRecord)
      requires Valid()
      modifies this
      ensures Valid() && record in Records() && Records() <= old(Records()) + {record}
      ensures Contents == old(Contents)[record.subject := record.namespaces]
      ensures GetByKey(record.subject) == record
    {
      items := items[record.subject := record];
      Contents := Contents[record.subject := record.namespaces];
      assert items[record.subject] == record;
    }

    /** The record of a subject goes; the store stays well-formed. */
    method Delete(record: SubjectRecord)
      requires Valid()
      modifies this
      ensures Valid() && Records() <= old(Records())
      ensures Contents == old(Contents) - {record.subject}
      ensures GetByKey(record.subject) == null
    {
      items := items - {record.subject};
      Contents := Contents - {record.subject};
    }
  }

  /** One iteration of deleteNamespaceFromSubjects. `mid` is what the store held between its two writes. */
  method DeleteNamespaceFromSubject(store: SubjectStore, subject: string, namespace: string)
    returns (ghost mid: Inverted)
    requires store.Valid()
    modifies store, store.Records()
    ensures store.Valid() && store.Records() <= old(store.Records())
    ensures mid == Apply(old(store.Contents), Remove(subject), namespace)
    ensures store.Contents == Apply(mid, DropIfEmpty(subject), namespace)
  {
    mid := store.Contents;
    var record := store.GetByKey(subject);
    if record != null {
      record.namespaces := record.namespaces - {namespace};
      store.Contents := store.Contents[subject := record.namespaces];
      mid := store.Contents;
      if record.namespaces == {} {
        store.Delete(record);
      }
    }
  }

  /** One iteration of addSubjectsToNamespace. `mid` is what the store held between its two writes. */
  method AddSubjectToNamespace(store: SubjectStore, subject: string, namespace: string)
    returns (ghost mid: Inverted)
    requires store.Valid()
    modifies store, store.Records()
    ensures store.Valid() && fresh(store.Records() - old(store.Records()))
    ensures mid == Apply(old(store.Contents), Create(subject), namespace)
    ensures store.Contents == Apply(mid, Insert(subject), namespace)
  {
    var item := store.GetByKey(subject);
    if item == null {
      item := new SubjectRecord(subject);
      store.Add(item);
    }
    mid := store.Contents;
    item.namespaces := item.namespaces + {namespace};
    store.Contents := store.Contents[subject := item.namespaces];
  }

  /** Remove the namespace from each subject; a subject left without namespaces leaves the store.
      `points` is what the store held after each write. */
  method DeleteNamespaceFromSubjects(store: SubjectStore, subjects: seq<string>, namespace: string)
    returns (ghost points: seq<Inverted>)
    requires store.Valid()
    modifies store, store.Records()
    ensures store.Valid() && store.Records() <= old(store.Records())
    ensures store.Contents == DeleteAll(old(store.Contents), Elements(subjects), namespace)
    ensures points == Trace(old(store.Contents), DeleteWrites(subjects), namespace)
  {
    ghost var m0 := store.Contents;
    points := [];
    for i := 0 to |subjects|
      invariant store.Valid() && store.Records() <= old(store.Records())
      invariant store.Contents == ApplyAll(m0, DeleteWrites(subjects[..i]), namespace)
      invariant points == Trace(m0, DeleteWrites(subjects[..i]), namespace)
    {
      ghost var mid := DeleteNamespaceFromSubject(store, subjects[i], namespace);
      points := points + [mid, store.Contents];
      assert subjects[..i + 1][..i] == subjects[..i];
      ApplyTwo(m0, DeleteWrites(subjects[..i]), Remove(subjects[i]), DropIfEmpty(subjects[i]), namespace);
      TraceTwo(m0, DeleteWrites(subjects[..i]), Remove(subjects[i]), DropIfEmpty(subjects[i]), namespace);
    }
    assert subjects[..|subjects|] == subjects;
    DeleteWritesAmountTo(m0, subjects, namespace);
  }

  /** Add the namespace to each subject, creating the subject's record when it is missing. */
  method AddSubjectsToNamespace(store: SubjectStore, subjects: seq<string>, namespace: string)
    returns (ghost points: seq<Inverted>)
    requires store.Valid()
    modifies store, store.Records()
    ensures store.Valid() && fresh(store.Records() - old(store.Records()))
    ensures store.Contents == AddAll(old(store.Contents), Elements(subjects), namespace)
    ensures points == Trace(old(store.Contents), AddWrites(subjects), namespace)
  {
    ghost var m0 := store.Contents;
    points := [];
    for i := 0 to |subjects|
      invariant store.Valid() && fresh(store.Records() - old(store.Records()))
      invariant store.Contents == ApplyAll(m0, AddWrites(subjects[..i]), namespace)
      invariant points == Trace(m0, AddWrites(subjects[..i]), namespace)
    {
      ghost var mid := AddSubjectToNamespace(store, subjects[i], namespace);
      points := points + [mid, store.Contents];
      assert subjects[..i + 1][..i] == subjects[..i];
      ApplyTwo(m0, AddWrites(subjects[..i]), Create(subjects[i]), Insert(subjects[i]), namespace);
      TraceTwo(m0, AddWrites(subjects[..i]), Create(subjects[i]), Insert(subjects[i]), namespace);
    }
    assert subjects[..|subjects|] == subjects;
    AddWritesAmountTo(m0, subjects, namespace);
  }
}
