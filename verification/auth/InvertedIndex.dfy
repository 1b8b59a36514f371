/** One inverted store as a value: for each subject, the namespaces it is indexed under. */
module InvertedIndex {
  import opened Common

  type Inverted = map<string, set<string>>

  predicate Has(m: Inverted, key: string, element: string) {
    key in m && element in m[key]
  }

  /** deleteNamespaceFromSubjects: the namespace leaves each subject; emptied subjects leave the store. */
  function DeleteAll(m: Inverted, subjects: set<string>, namespace: string): Inverted {
    map s | s in m && !(s in subjects && m[s] - {namespace} == {}) ::
      if s in subjects then m[s] - {namespace} else m[s]
  }

  /** addSubjectsToNamespace: the namespace joins each subject, which is created if missing. */
  function AddAll(m: Inverted, subjects: set<string>, namespace: string): Inverted {
    map s | s in m.Keys + subjects ::
      (if s in m then m[s] else {}) + (if s in subjects then {namespace} else {})
  }

  /** Forget a set of namespaces everywhere; emptied subjects leave the store. */
  function Forget(m: Inverted, namespaces: set<string>): Inverted {
    map s | s in m && m[s] - namespaces != {} :: m[s] - namespaces
  }

  // ---- the invariant: `m` is the inverse of `listing` (namespace -> subjects) ------------------

  ghost predicate InverseOf(m: Inverted, listing: map<string, set<string>>) {
    && (forall s | s in m :: m[s] != {})
    && (forall s, n :: Has(m, s, n) <==> Has(listing, n, s))
  }

  /** A listing has only one inverse: the forward records determine the index completely. */
  lemma InverseIsUnique(m: Inverted, m': Inverted, listing: map<string, set<string>>)
    requires InverseOf(m, listing) && InverseOf(m', listing)
    ensures m == m'
  {
    forall s | s in m ensures s in m' && m[s] == m'[s] { SameEntry(m, m', listing, s); }
    forall s | s in m' ensures s in m { SameEntry(m', m, listing, s); }
  }

  lemma SameEntry(m: Inverted, m': Inverted, listing: map<string, set<string>>, s: string)
    requires InverseOf(m, listing) && InverseOf(m', listing) && s in m
    ensures s in m' && m[s] == m'[s]
  {
    forall n ensures Has(m, s, n) <==> Has(m', s, n) {
      assert Has(m, s, n) <==> Has(listing, n, s);
      assert Has(m', s, n) <==> Has(listing, n, s);
    }
    var n :| n in m[s];
    assert Has(m, s, n);
    assert forall k :: k in m[s] <==> Has(m, s, k);
    assert forall k :: k in m'[s] <==> Has(m', s, k);
  }

  /** What a review removes: the subjects it no longer names. */
  function Stale(listing: map<string, set<string>>, namespace: string, subjects: set<string>): set<string> {
    (if namespace in listing then listing[namespace] else {}) - subjects
  }

  function Replace(m: Inverted, listing: map<string, set<string>>, namespace: string, subjects: set<string>): Inverted {
    AddAll(DeleteAll(m, Stale(listing, namespace, subjects), namespace), subjects, namespace)
  }

  lemma ReplaceKeepsInverse(m: Inverted, listing: map<string, set<string>>, namespace: string, subjects: set<string>)
    requires InverseOf(m, listing)
    ensures InverseOf(Replace(m, listing, namespace, subjects), listing[namespace := subjects])
  {
    var m', listing' := Replace(m, listing, namespace, subjects), listing[namespace := subjects];
    forall s, n ensures Has(m', s, n) <==> Has(listing', n, s) {
      assert Has(m, s, n) <==> Has(listing, n, s);
      assert Has(m, s, namespace) <==> Has(listing, namespace, s);
    }
  }

  lemma ForgetKeepsInverse(m: Inverted, listing: map<string, set<string>>, namespaces: set<string>)
    requires InverseOf(m, listing)
    ensures InverseOf(Forget(m, namespaces), listing - namespaces)
  {
    forall s, n ensures Has(Forget(m, namespaces), s, n) <==> Has(listing - namespaces, n, s) {
      assert Has(m, s, n) <==> Has(listing, n, s);
      if Has(m, s, n) && n !in namespaces {
        assert n in m[s] - namespaces;
      }
      assert Has(listing - namespaces, n, s) <==> Has(listing, n, s) && n !in namespaces;
    }
  }

  /** Deleting one more reviewed namespace from the subjects its record lists forgets it completely. */
  lemma ForgetOneMore(m: Inverted, listing: map<string, set<string>>, gone: set<string>, namespace: string)
    requires InverseOf(m, listing) && namespace in listing
    ensures DeleteAll(Forget(m, gone), listing[namespace], namespace) == Forget(m, gone + {namespace})
  {
    var a, b := DeleteAll(Forget(m, gone), listing[namespace], namespace), Forget(m, gone + {namespace});
    forall s | s in m
      ensures s in a <==> s in b
      ensures s in a ==> a[s] == b[s]
    {
      assert Has(m, s, namespace) <==> Has(listing, namespace, s);
      assert m[s] - gone - {namespace} == m[s] - (gone + {namespace});
      if s !in listing[namespace] {
        assert m[s] - gone - {namespace} == m[s] - gone;
      }
    }
  }

  lemma ForgetNothing(m: Inverted, listing: map<string, set<string>>)
    requires InverseOf(m, listing)
    ensures Forget(m, {}) == m
  {
    assert forall s | s in m :: m[s] - {} == m[s];
  }

  // ---- store writes, one at a time -------------------------------------------------------------

  /** A single write to a store or to a record in it. */
  datatype Write =
    | Remove(subject: string)       // delete(record.namespaces, namespace)
    | DropIfEmpty(subject: string)  // store.Delete(record) once it is empty
    | Create(subject: string)       // store.Add(empty record)
    | Insert(subject: string)       // record.namespaces.Insert(namespace)

  function Apply(m: Inverted, w: Write, namespace: string): Inverted {
    match w
    case Remove(s) => if s in m then m[s := m[s] - {namespace}] else m
    case DropIfEmpty(s) => if s in m && m[s] == {} then m - {s} else m
    case Create(s) => if s in m then m else m[s := {}]
    case Insert(s) => if s in m then m[s := m[s] + {namespace}] else m
  }

  function ApplyAll(m: Inverted, writes: seq<Write>, namespace: string): Inverted {
    if writes == [] then m
    else Apply(ApplyAll(m, writes[..|writes| - 1], namespace), writes[|writes| - 1], namespace)
  }

  function DeleteWrites(subjects: seq<string>): seq<Write> {
    if subjects == [] then []
    else
      var s := subjects[|subjects| - 1];
      DeleteWrites(subjects[..|subjects| - 1]) + [Remove(s), DropIfEmpty(s)]
  }

  function AddWrites(subjects: seq<string>): seq<Write> {
    if subjects == [] then []
    else
      var s := subjects[|subjects| - 1];
      AddWrites(subjects[..|subjects| - 1]) + [Create(s), Insert(s)]
  }

  /** The contents of the store after each of the writes. */
  function Trace(m: Inverted, writes: seq<Write>, namespace: string): seq<Inverted> {
    if writes == [] then []
    else Trace(m, writes[..|writes| - 1], namespace) + [ApplyAll(m, writes, namespace)]
  }

  lemma {:induction false} TraceAt(m: Inverted, writes: seq<Write>, namespace: string, k: nat)
    requires k < |writes|
    ensures k < |Trace(m, writes, namespace)| &&
        Trace(m, writes, namespace)[k] == ApplyAll(m, writes[..k + 1], namespace)
  {
    var init := writes[..|writes| - 1];
    TraceLength(m, init, namespace);
    if k < |init| {
      TraceAt(m, init, namespace, k);
      assert init[..k + 1] == writes[..k + 1];
    } else {
      assert writes[..k + 1] == writes;
    }
  }

  lemma {:induction false} TraceAppend(m: Inverted, a: seq<Write>, b: seq<Write>, namespace: string)
    ensures Trace(m, a + b, namespace) == Trace(m, a, namespace) + Trace(ApplyAll(m, a, namespace), b, namespace)
  {
    if b == [] {
      assert a + b == a;
    } else {
      assert (a + b)[..|a + b| - 1] == a + b[..|b| - 1];
      TraceAppend(m, a, b[..|b| - 1], namespace);
      ApplyAllAppend(m, a, b, namespace);
    }
  }

  lemma TraceTwo(m: Inverted, writes: seq<Write>, v: Write, w: Write, namespace: string)
    ensures var m1 := Apply(ApplyAll(m, writes, namespace), v, namespace);
      Trace(m, writes + [v, w], namespace) == Trace(m, writes, namespace) + [m1, Apply(m1, w, namespace)]
  {
    ApplyTwo(m, writes, v, w, namespace);
    var one, two := writes + [v], writes + [v, w];
    assert two[..|two| - 1] == one && one[..|one| - 1] == writes;
  }

  lemma ApplyTwo(m: Inverted, writes: seq<Write>, v: Write, w: Write, namespace: string)
    ensures ApplyAll(m, writes + [v], namespace) == Apply(ApplyAll(m, writes, namespace), v, namespace)
    ensures ApplyAll(m, writes + [v, w], namespace) ==
        Apply(Apply(ApplyAll(m, writes, namespace), v, namespace), w, namespace)
  {
    assert (writes + [v])[..|writes|] == writes;
    assert (writes + [v, w])[..|writes| + 1] == writes + [v];
  }

  lemma DeleteStep(m: Inverted, done: set<string>, s: string, namespace: string)
    ensures Apply(Apply(DeleteAll(m, done, namespace), Remove(s), namespace), DropIfEmpty(s), namespace)
         == DeleteAll(m, done + {s}, namespace)
  {
    var a := Apply(Apply(DeleteAll(m, done, namespace), Remove(s), namespace), DropIfEmpty(s), namespace);
    var b := DeleteAll(m, done + {s}, namespace);
    forall t | t in m
      ensures t in a <==> t in b
      ensures t in a ==> a[t] == b[t]
    {
      assert m[t] - {namespace} - {namespace} == m[t] - {namespace};
    }
  }

  lemma InsertsOne(m: Inverted, s: string, namespace: string)
    ensures Apply(Apply(m, Create(s), namespace), Insert(s), namespace) ==
        m[s := (if s in m then m[s] else {}) + {namespace}]
  {
  }

  lemma AddOneMore(m: Inverted, done: set<string>, s: string, namespace: string)
    ensures var added := AddAll(m, done, namespace);
      AddAll(m, done + {s}, namespace) == added[s := (if s in added then added[s] else {}) + {namespace}]
  {
    var added, all := AddAll(m, done, namespace), AddAll(m, done + {s}, namespace);
    var target := added[s := (if s in added then added[s] else {}) + {namespace}];
    forall t ensures t in all <==> t in target {
    }
    forall t | t in all ensures all[t] == target[t] {
      assert t in done + {s} <==> t in done || t == s;
    }
  }

  lemma AddStep(m: Inverted, done: set<string>, s: string, namespace: string)
    ensures Apply(Apply(AddAll(m, done, namespace), Create(s), namespace), Insert(s), namespace)
         == AddAll(m, done + {s}, namespace)
  {
    InsertsOne(AddAll(m, done, namespace), s, namespace);
    AddOneMore(m, done, s, namespace);
  }

  lemma AddNothing(m: Inverted, namespace: string)
    ensures AddAll(m, {}, namespace) == m
  {
    assert m.Keys + {} == m.Keys;
    assert forall s | s in m :: m[s] + {} == m[s];
  }

  /** The writes of deleteNamespaceFromSubjects amount to DeleteAll. */
  lemma {:induction false} DeleteWritesAmountTo(m: Inverted, subjects: seq<string>, namespace: string)
    ensures ApplyAll(m, DeleteWrites(subjects), namespace) == DeleteAll(m, Elements(subjects), namespace)
  {
    if subjects != [] {
      var init, s := subjects[..|subjects| - 1], subjects[|subjects| - 1];
      DeleteWritesAmountTo(m, init, namespace);
      ApplyTwo(m, DeleteWrites(init), Remove(s), DropIfEmpty(s), namespace);
      DeleteStep(m, Elements(init), s, namespace);
      assert Elements(subjects) == Elements(init) + {s};
    }
  }

  /** The writes of addSubjectsToNamespace amount to AddAll. */
  lemma {:induction false} AddWritesAmountTo(m: Inverted, subjects: seq<string>, namespace: string)
    ensures ApplyAll(m, AddWrites(subjects), namespace) == AddAll(m, Elements(subjects), namespace)
  {
    if subjects == [] {
      AddNothing(m, namespace);
    } else {
      var init, s := subjects[..|subjects| - 1], subjects[|subjects| - 1];
      AddWritesAmountTo(m, init, namespace);
      ApplyTwo(m, AddWrites(init), Create(s), Insert(s), namespace);
      AddStep(m, Elements(init), s, namespace);
      assert Elements(subjects) == Elements(init) + {s};
    }
  }

  // ---- no transient loss -----------------------------------------------------------------------

  /** The subjects indexed under a namespace. */
  function Under(m: Inverted, namespace: string): set<string> {
    set s | s in m && namespace in m[s]
  }

  lemma WriteEffect(m: Inverted, w: Write, namespace: string)
    ensures var m' := Apply(m, w, namespace);
      && (forall s, n | n != namespace :: Has(m', s, n) <==> Has(m, s, n))
      && (w.Remove? ==> Under(m', namespace) == Under(m, namespace) - {w.subject})
      && (w.DropIfEmpty? || w.Create? ==> Under(m', namespace) == Under(m, namespace))
      && Under(m', namespace) <= Under(m, namespace) + {w.subject}
      && (w.Insert? ==> Under(m, namespace) <= Under(m', namespace))
  {
  }

  ghost predicate Removal(w: Write, stale: set<string>) {
    w.DropIfEmpty? || (w.Remove? && w.subject in stale)
  }

  ghost predicate Addition(w: Write, fresh': set<string>) {
    w.Create? || (w.Insert? && w.subject in fresh')
  }

  /** After any prefix of a store's writes for one review, the subjects under the namespace have lost
      only stale ones and gained only newly reviewed ones, and no other namespace is touched. */
  lemma {:induction false} WritesStayBetween(m: Inverted, writes: seq<Write>, namespace: string, stale: set<string>,
      subjects: set<string>)
    requires forall w | w in writes :: Removal(w, stale) || Addition(w, subjects)
    requires stale !! subjects
    ensures var m' := ApplyAll(m, writes, namespace);
      && Under(m, namespace) - stale <= Under(m', namespace) <= Under(m, namespace) + subjects
      && (forall s, n | n != namespace :: Has(m', s, n) <==> Has(m, s, n))
  {
    if writes != [] {
      var init, w := writes[..|writes| - 1], writes[|writes| - 1];
      assert w in writes && forall v | v in init :: v in writes;
      WritesStayBetween(m, init, namespace, stale, subjects);
      WriteEffect(ApplyAll(m, init, namespace), w, namespace);
      var m1, m' := ApplyAll(m, init, namespace), ApplyAll(m, writes, namespace);
      forall s, n | n != namespace ensures Has(m', s, n) <==> Has(m, s, n) {
        assert Has(m1, s, n) <==> Has(m, s, n);
      }
    }
  }

  lemma {:induction false} WritesAreKnown(subjects: seq<string>)
    ensures forall w | w in DeleteWrites(subjects) :: Removal(w, Elements(subjects))
    ensures forall w | w in AddWrites(subjects) :: Addition(w, Elements(subjects))
  {
    if subjects != [] {
      var init := subjects[..|subjects| - 1];
      WritesAreKnown(init);
      assert Elements(init) <= Elements(subjects);
    }
  }

  lemma TracesCompose(m: Inverted, stale: seq<string>, subjects: seq<string>, namespace: string, first: seq<Inverted>,
      second: seq<Inverted>)
    requires first == Trace(m, DeleteWrites(stale), namespace)
    requires second == Trace(DeleteAll(m, Elements(stale), namespace), AddWrites(subjects), namespace)
    ensures first + second == Trace(m, DeleteWrites(stale) + AddWrites(subjects), namespace)
  {
    DeleteWritesAmountTo(m, stale, namespace);
    TraceAppend(m, DeleteWrites(stale), AddWrites(subjects), namespace);
  }

  function ListedFor(listing: map<string, set<string>>, namespace: string): set<string> {
    if namespace in listing then listing[namespace] else {}
  }

  /** The subjects indexed under the namespace lie between old * new and old + new, and no other
      namespace is touched. */
  ghost predicate Between(m: Inverted, listing: map<string, set<string>>, namespace: string, subjects: set<string>,
      m': Inverted) {
    && ListedFor(listing, namespace) * subjects <= Under(m', namespace) <= ListedFor(listing, namespace) + subjects
    && forall s, n | n != namespace :: Has(m', s, n) <==> Has(m, s, n)
  }

  /** No transient loss: after every write of a review, a store of a consistent index is between old and
      new, and at the end it is exactly new. */
  lemma NoTransientLoss(m: Inverted, listing: map<string, set<string>>, namespace: string, stale: seq<string>,
      subjects: seq<string>, points: seq<Inverted>)
    requires InverseOf(m, listing)
    requires Elements(stale) == Stale(listing, namespace, Elements(subjects))
    requires points == Trace(m, DeleteWrites(stale) + AddWrites(subjects), namespace)
    ensures forall k | 0 <= k < |points| :: Between(m, listing, namespace, Elements(subjects), points[k])
    ensures Under(if points == [] then m else points[|points| - 1], namespace) == Elements(subjects)
  {
    var writes := DeleteWrites(stale) + AddWrites(subjects);
    TraceLength(m, writes, namespace);
    UnderIsListed(m, listing, namespace);
    forall k | 0 <= k < |points|
      ensures points[k] == ApplyAll(m, writes[..k + 1], namespace)
      ensures Between(m, listing, namespace, Elements(subjects), points[k])
    {
      TraceAt(m, writes, namespace, k);
      PointStaysBetween(m, stale, subjects, namespace, k);
    }
    AllWritesReplace(m, listing, namespace, stale, subjects);
    assert writes[..|writes|] == writes;
  }

  lemma PointStaysBetween(m: Inverted, stale: seq<string>, subjects: seq<string>, namespace: string, k: nat)
    requires k < |DeleteWrites(stale) + AddWrites(subjects)| && Elements(stale) !! Elements(subjects)
    ensures var m' := ApplyAll(m, (DeleteWrites(stale) + AddWrites(subjects))[..k + 1], namespace);
      && Under(m, namespace) - Elements(stale) <= Under(m', namespace) <= Under(m, namespace) + Elements(subjects)
      && forall s, n | n != namespace :: Has(m', s, n) <==> Has(m, s, n)
  {
    var writes := DeleteWrites(stale) + AddWrites(subjects);
    WritesAreKnown(stale);
    WritesAreKnown(subjects);
    forall w | w in writes[..k + 1] ensures Removal(w, Elements(stale)) || Addition(w, Elements(subjects)) {
      assert w in DeleteWrites(stale) || w in AddWrites(subjects);
    }
    WritesStayBetween(m, writes[..k + 1], namespace, Elements(stale), Elements(subjects));
  }

  lemma {:induction false} TraceLength(m: Inverted, writes: seq<Write>, namespace: string)
    ensures |Trace(m, writes, namespace)| == |writes|
  {
    if writes != [] {
      TraceLength(m, writes[..|writes| - 1], namespace);
    }
  }

  lemma AllWritesReplace(m: Inverted, listing: map<string, set<string>>, namespace: string, stale: seq<string>,
      subjects: seq<string>)
    requires InverseOf(m, listing)
    requires Elements(stale) == Stale(listing, namespace, Elements(subjects))
    ensures Under(ApplyAll(m, DeleteWrites(stale) + AddWrites(subjects), namespace), namespace) == Elements(subjects)
  {
    ApplyAllAppend(m, DeleteWrites(stale), AddWrites(subjects), namespace);
    DeleteWritesAmountTo(m, stale, namespace);
    AddWritesAmountTo(DeleteAll(m, Elements(stale), namespace), subjects, namespace);
    ReplaceKeepsInverse(m, listing, namespace, Elements(subjects));
    UnderIsListed(Replace(m, listing, namespace, Elements(subjects)), listing[namespace := Elements(subjects)],
        namespace);
  }

  lemma UnderIsListed(m: Inverted, listing: map<string, set<string>>, namespace: string)
    requires InverseOf(m, listing)
    ensures Under(m, namespace) == ListedFor(listing, namespace)
  {
    forall s ensures s in Under(m, namespace) <==> Has(listing, namespace, s) {
      assert Has(m, s, namespace) <==> Has(listing, namespace, s);
    }
    assert forall s :: Has(listing, namespace, s) <==> s in ListedFor(listing, namespace);
  }

  lemma {:induction false} ApplyAllAppend(m: Inverted, a: seq<Write>, b: seq<Write>, namespace: string)
    ensures ApplyAll(m, a + b, namespace) == ApplyAll(ApplyAll(m, a, namespace), b, namespace)
  {
    if b == [] {
      assert a + b == a;
    } else {
      assert (a + b)[..|a + b| - 1] == a + b[..|b| - 1];
      ApplyAllAppend(m, a, b[..|b| - 1], namespace);
    }
  }
}
