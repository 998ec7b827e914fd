/** Laws of one hashing pass over a fixed snapshot of the cluster. */
module PassLaws {
  import opened Common
  import opened Ledger
  import opened HashPass
  import W = WatchList

  type Snapshot = map<Key, SecretObject>

  /** The reads of a pass answered from one snapshot: a missing secret fails. */
  predicate AnsweredFrom(snapshot: Snapshot, keys: seq<Key>, answers: Answers) {
    forall i :: 0 <= i < |keys| ==>
      Answer(answers, i) == if keys[i] in snapshot then Some(snapshot[keys[i]]) else None
  }

  function WatchedKeys(watch: Watch): set<Key> {
    set ns, i | ns in watch && 0 <= i < |watch[ns]| :: Key(ns, watch[ns][i])
  }

  lemma {:induction false} FlattenContains(order: seq<string>, watch: Watch, k: Key)
    requires forall ns :: ns in order ==> ns in watch
    ensures k in Flatten(order, watch) <==>
            k.namespace in order
            && exists i :: 0 <= i < |watch[k.namespace]| && Key(k.namespace, watch[k.namespace][i]) == k
  {
    if order == [] {
    } else {
      var n := |order| - 1;
      FlattenContains(order[..n], watch, k);
      assert order == order[..n] + [order[n]];
      var last := KeysIn(order[n], watch[order[n]]);
      if k in last {
        var i :| 0 <= i < |last| && last[i] == k;
        assert Key(k.namespace, watch[k.namespace][i]) == k;
      }
      if k.namespace == order[n] {
        if i :| 0 <= i < |watch[k.namespace]| && Key(k.namespace, watch[k.namespace][i]) == k {
          assert last[i] == k;
        }
      }
    }
  }

  /** How many visits come before those of a namespace. */
  function VisitsBefore(order: seq<string>, watch: Watch, i: nat): nat
    requires i <= |order| && forall ns :: ns in order ==> ns in watch
  {
    if i == 0 then 0 else VisitsBefore(order, watch, i - 1) + |watch[order[i - 1]]|
  }

  lemma {:induction false} VisitsBeforeAgree(order: seq<string>, watch: Watch, n: nat, i: nat)
    requires i <= n <= |order| && forall ns :: ns in order ==> ns in watch
    ensures forall ns :: ns in order[..n] ==> ns in watch
    ensures VisitsBefore(order[..n], watch, i) == VisitsBefore(order, watch, i)
  {
    assert forall ns :: ns in order[..n] ==> ns in order;
    if i > 0 {
      VisitsBeforeAgree(order, watch, n, i - 1);
    }
  }

  predicate VisitedAt(order: seq<string>, watch: Watch, i: nat, j: nat)
    requires (forall ns :: ns in order ==> ns in watch) && i < |order| && j < |watch[order[i]]|
  {
    var at := VisitsBefore(order, watch, i) + j;
    at < |Flatten(order, watch)| && Flatten(order, watch)[at] == Key(order[i], watch[order[i]][j])
  }

  /** Every name of every list is visited once, list after list and in the order of each. */
  lemma {:induction false} FlattenIsInOrder(order: seq<string>, watch: Watch)
    requires forall ns :: ns in order ==> ns in watch
    ensures |Flatten(order, watch)| == VisitsBefore(order, watch, |order|)
    ensures forall i, j :: 0 <= i < |order| && 0 <= j < |watch[order[i]]| ==> VisitedAt(order, watch, i, j)
  {
    if order == [] {
    } else {
      var n := |order| - 1;
      VisitsBeforeAgree(order, watch, n, n);
      FlattenIsInOrder(order[..n], watch);
      forall i, j | 0 <= i < |order| && 0 <= j < |watch[order[i]]|
        ensures VisitedAt(order, watch, i, j)
      {
        if i < n {
          VisitsBeforeAgree(order, watch, n, i);
          assert order[..n][i] == order[i];
          assert VisitedAt(order[..n], watch, i, j);
        }
      }
    }
  }

  /** Whatever the order of the namespaces, the same keys are visited. */
  lemma OrderVisitsAll(order: seq<string>, watch: Watch)
    requires IsEnumeration(order, watch.Keys) && forall ns :: ns in order ==> ns in watch
    ensures Elements(Flatten(order, watch)) == WatchedKeys(watch)
  {
    assert forall ns :: ns in watch ==> ns in Elements(order) && ns in order;
    forall k
      ensures k in Elements(Flatten(order, watch)) <==> k in WatchedKeys(watch)
    {
      FlattenContains(order, watch, k);
    }
  }

  ghost function Observations(snapshot: Snapshot, digest: Digest): (seen: map<Key, Observation>)
    ensures seen.Keys == snapshot.Keys
  {
    map k | k in snapshot :: Observe(snapshot[k], digest)
  }

  lemma VisitsReadSnapshot(snapshot: Snapshot, keys: seq<Key>, answers: Answers, digest: Digest)
    requires AnsweredFrom(snapshot, keys, answers)
    ensures AllRead(|keys|, answers) <==> Elements(keys) <= snapshot.Keys
    ensures AllRead(|keys|, answers) ==>
      && Reads(Observations(snapshot, digest), ToVisits(keys, 0, answers, digest))
      && Visited(ToVisits(keys, 0, answers, digest)) == Elements(keys)
  {
    if Elements(keys) <= snapshot.Keys {
      forall i: nat | i < |keys|
        ensures Answer(answers, i).Some?
      {
        assert keys[i] in Elements(keys);
      }
    }
    if AllRead(|keys|, answers) {
      forall k | k in Elements(keys)
        ensures k in snapshot
      {
        var i :| 0 <= i < |keys| && keys[i] == k;
        assert Answer(answers, i).Some?;
      }
      var visits := ToVisits(keys, 0, answers, digest);
      forall v | v in visits
        ensures v.key in keys && v.key in snapshot && v.seen == Observe(snapshot[v.key], digest)
      {
        var i :| 0 <= i < |visits| && visits[i] == v;
        assert Answer(answers, i).Some?;
      }
      forall k | k in keys
        ensures k in Visited(visits)
      {
        var i :| 0 <= i < |keys| && keys[i] == k;
        assert visits[i] in visits && visits[i].key == k;
      }
    }
  }

  /** What a pass over a snapshot visits: the watched keys, each as the snapshot shows it, or a failing read. */
  lemma PassOverSnapshot(snapshot: Snapshot, watch: Watch, order: seq<string>, answers: Answers, digest: Digest)
    requires IsEnumeration(order, watch.Keys) && forall ns :: ns in order ==> ns in watch
    requires AnsweredFrom(snapshot, Flatten(order, watch), answers)
    ensures
      var keys := Flatten(order, watch);
      && (AllRead(|keys|, answers) <==> WatchedKeys(watch) <= snapshot.Keys)
      && (keys == [] <==> WatchedKeys(watch) == {})
      && (AllRead(|keys|, answers) ==>
            && Reads(Observations(snapshot, digest), ToVisits(keys, 0, answers, digest))
            && Visited(ToVisits(keys, 0, answers, digest)) == WatchedKeys(watch))
  {
    OrderVisitsAll(order, watch);
    VisitsReadSnapshot(snapshot, Flatten(order, watch), answers, digest);
    NoElements(Flatten(order, watch));
  }

  function BookOf(stored: Option<Blob>): Book {
    if stored.Some? && stored.value.Encoded? then stored.value.book else []
  }

  /** Whether a pass over a snapshot can write, which no order of visits decides. */
  ghost predicate CanWrite(stored: Option<Blob>, snapshot: Snapshot, watch: Watch, faults: Faults) {
    && Loaded(stored, faults).Some?
    && WatchedKeys(watch) <= snapshot.Keys
    && WatchedKeys(watch) != {}
    && Accepts(Current(stored, faults), faults)
  }

  ghost predicate CanSucceed(stored: Option<Blob>, snapshot: Snapshot, watch: Watch, faults: Faults) {
    && Loaded(stored, faults).Some?
    && WatchedKeys(watch) <= snapshot.Keys
    && (WatchedKeys(watch) != {} ==> CanWrite(stored, snapshot, watch, faults) && !faults.lost)
  }

  /** The ledger a pass over a snapshot leaves, as a map. */
  ghost function MapAfter(stored: Option<Blob>, snapshot: Snapshot, watch: Watch, faults: Faults, digest: Digest)
      : map<Key, Record> {
    if CanWrite(stored, snapshot, watch, faults)
    then PassMap(AsMap(Loaded(stored, faults).value), Observations(snapshot, digest), WatchedKeys(watch))
    else AsMap(BookOf(Current(stored, faults)))
  }

  lemma PassIsDetermined(stored: Option<Blob>, snapshot: Snapshot, watch: Watch, digest: Digest, faults: Faults,
                         order: seq<string>, answers: Answers)
    requires IsEnumeration(order, watch.Keys) && forall ns :: ns in order ==> ns in watch
    requires AnsweredFrom(snapshot, Flatten(order, watch), answers)
    ensures Succeeds(stored, Flatten(order, watch), answers, faults) <==> CanSucceed(stored, snapshot, watch, faults)
    ensures Writes(stored, Flatten(order, watch), answers, faults) <==> CanWrite(stored, snapshot, watch, faults)
    ensures AsMap(BookOf(After(stored, Flatten(order, watch), answers, faults, digest)))
         == MapAfter(stored, snapshot, watch, faults, digest)
  {
    PassOverSnapshot(snapshot, watch, order, answers, digest);
    if Writes(stored, Flatten(order, watch), answers, faults) {
      WrittenMap(stored, snapshot, watch, digest, faults, Flatten(order, watch), answers);
    }
  }

  lemma WrittenMap(stored: Option<Blob>, snapshot: Snapshot, watch: Watch, digest: Digest, faults: Faults,
                   keys: seq<Key>, answers: Answers)
    requires Writes(stored, keys, answers, faults) && WatchedKeys(watch) <= snapshot.Keys
    requires Reads(Observations(snapshot, digest), ToVisits(keys, 0, answers, digest))
    requires Visited(ToVisits(keys, 0, answers, digest)) == WatchedKeys(watch)
    ensures AsMap(BookOf(After(stored, keys, answers, faults, digest)))
         == PassMap(AsMap(Loaded(stored, faults).value), Observations(snapshot, digest), WatchedKeys(watch))
  {
    PassIsConfluent(Loaded(stored, faults).value, Observations(snapshot, digest), ToVisits(keys, 0, answers, digest));
  }

  /**
   Two passes over the same snapshot, watch list and stored ledger, whatever order each walks the namespaces in: both
   fail, or both store ledgers that are the same map.
   */
  lemma PassIsOrderIndependent(stored: Option<Blob>, snapshot: Snapshot, watch: Watch, digest: Digest, faults: Faults,
                               order: seq<string>, answers: Answers, order': seq<string>, answers': Answers)
    requires IsEnumeration(order, watch.Keys) && forall ns :: ns in order ==> ns in watch
    requires IsEnumeration(order', watch.Keys) && forall ns :: ns in order' ==> ns in watch
    requires AnsweredFrom(snapshot, Flatten(order, watch), answers)
    requires AnsweredFrom(snapshot, Flatten(order', watch), answers')
    ensures Succeeds(stored, Flatten(order, watch), answers, faults)
        <==> Succeeds(stored, Flatten(order', watch), answers', faults)
    ensures AsMap(BookOf(After(stored, Flatten(order, watch), answers, faults, digest)))
         == AsMap(BookOf(After(stored, Flatten(order', watch), answers', faults, digest)))
  {
    PassIsDetermined(stored, snapshot, watch, digest, faults, order, answers);
    PassIsDetermined(stored, snapshot, watch, digest, faults, order', answers');
  }

  /** Whether all else is in order: the other secrets can be read, and so can the ledger, and it can be written. */
  ghost predicate InOrderOtherwise(stored: Option<Blob>, snapshot: Snapshot, watch: Watch, faults: Faults) {
    && Loaded(stored, faults).Some? && Accepts(Current(stored, faults), faults) && !faults.lost
    && forall k | k in WatchedKeys(watch) && k.namespace != "" :: k in snapshot
  }

  /**
   An empty field in the namespace list makes a pass fail exactly when one secret is eligible under it: the listing
   finds the secret, but no secret can be read in a namespace without a name. It fails then whatever else happens; and
   with no such secret it succeeds if all else is in order.
  */
  lemma EmptyFieldFailsThePass(spec: W.Selection, cluster: W.Listing, snapshot: Snapshot, stored: Option<Blob>,
                               order: seq<string>, answers: Answers, faults: Faults, digest: Digest)
    requires "" in W.Selected(spec, cluster)
    requires forall k :: k in snapshot ==> k.namespace != ""
    requires
      var watch := W.ExpectedWatch(spec, cluster);
      && IsEnumeration(order, watch.Keys) && (forall ns :: ns in order ==> ns in watch)
      && AnsweredFrom(snapshot, Flatten(order, watch), answers)
    ensures
      var watch := W.ExpectedWatch(spec, cluster);
      var eligible := exists s :: s in cluster.secrets && W.Eligible(spec, "", s);
      && (eligible ==> !Succeeds(stored, Flatten(order, watch), answers, faults))
      && (InOrderOtherwise(stored, snapshot, watch, faults) ==>
            (Succeeds(stored, Flatten(order, watch), answers, faults) <==> !eligible))
  {
    var watch := W.ExpectedWatch(spec, cluster);
    W.EmptyFieldSelectsEverything(spec, cluster);
    PassIsDetermined(stored, snapshot, watch, digest, faults, order, answers);
    if "" in watch {
      EmptyNameIsWatched(spec, cluster);
    } else {
      assert forall k :: k in WatchedKeys(watch) ==> k.namespace != "";
    }
  }

  lemma EmptyNameIsWatched(spec: W.Selection, cluster: W.Listing)
    requires "" in W.ExpectedWatch(spec, cluster)
    ensures exists k :: k in WatchedKeys(W.ExpectedWatch(spec, cluster)) && k.namespace == ""
  {
    var watch := W.ExpectedWatch(spec, cluster);
    assert watch[""] != [];
    assert Key("", watch[""][0]) in WatchedKeys(watch);
  }

  /**
   After a pass that succeeded, or has written without hearing of it, a further pass over the unchanged cluster leaves
   the stored bytes as they are: same rows, same layout, in any order of namespaces and whether or not it meets
   failures.
  */
  lemma SecondPassStoresTheSame(stored: Option<Blob>, snapshot: Snapshot, watch: Watch, digest: Digest,
                                faults: Faults, order: seq<string>, answers: Answers,
                                faults': Faults, order': seq<string>, answers': Answers)
    requires IsEnumeration(order, watch.Keys) && forall ns :: ns in order ==> ns in watch
    requires IsEnumeration(order', watch.Keys) && forall ns :: ns in order' ==> ns in watch
    requires AnsweredFrom(snapshot, Flatten(order, watch), answers)
    requires AnsweredFrom(snapshot, Flatten(order', watch), answers')
    requires
      || Succeeds(stored, Flatten(order, watch), answers, faults)
      || Writes(stored, Flatten(order, watch), answers, faults)
    requires faults.meanwhile.None? && faults'.meanwhile.None?
    ensures
      var first := After(stored, Flatten(order, watch), answers, faults, digest);
      After(first, Flatten(order', watch), answers', faults', digest) == first
  {
    var keys, keys' := Flatten(order, watch), Flatten(order', watch);
    PassOverSnapshot(snapshot, watch, order, answers, digest);
    PassOverSnapshot(snapshot, watch, order', answers', digest);
    if keys != [] {
      var book := Loaded(stored, faults).value;
      var visits := ToVisits(keys, 0, answers, digest);
      if AllRead(|keys'|, answers') {
        SecondPassIsIdle(book, Observations(snapshot, digest), visits, ToVisits(keys', 0, answers', digest));
      }
      IdleApplyStoresTheSame(Apply(book, visits), keys', answers', faults', digest);
    }
  }

  lemma IdleApplyStoresTheSame(book: Book, keys: seq<Key>, answers: Answers, faults: Faults, digest: Digest)
    requires faults.meanwhile.None?
    requires AllRead(|keys|, answers) ==> Apply(book, ToVisits(keys, 0, answers, digest)) == book
    ensures After(Some(Encoded(book)), keys, answers, faults, digest) == Some(Encoded(book))
  {
  }

  ghost predicate LastOfItsKey(visits: seq<Visit>, i: nat)
    requires i < |visits|
  {
    forall j :: i < j < |visits| ==> visits[j].key != visits[i].key
  }

  lemma {:induction false} VisitIsSeen(visits: seq<Visit>, i: nat)
    requires i < |visits|
    ensures visits[i].seen in SeenOf(visits, visits[i].key)
    ensures LastOfItsKey(visits, i) ==>
      SeenOf(visits, visits[i].key)[|SeenOf(visits, visits[i].key)| - 1] == visits[i].seen
  {
    var n := |visits| - 1;
    if i < n {
      VisitIsSeen(visits[..n], i);
    }
  }

  lemma {:induction false} SeenHashesAreKept(prev: Option<Record>, seen: seq<Observation>, o: Observation)
    requires o in seen
    ensures o.hash in AbsorbAll(prev, seen).value.history
  {
    var n := |seen| - 1;
    assert seen == seen[..n] + [seen[n]];
    if o in seen[..n] {
      SeenHashesAreKept(prev, seen[..n], o);
    }
  }

  /**
   All or nothing. Either the pass leaves alone what is stored, or every watched secret has an entry, the hash of every
   read is in its history, and its last read dates it. A pass that watches anything has written exactly when it succeeds
   or nothing but the reply to its write was lost.
   */
  lemma PassIsAllOrNothing(stored: Option<Blob>, watch: Watch, order: seq<string>, answers: Answers, faults: Faults,
                           digest: Digest, k: Key)
    requires IsEnumeration(order, watch.Keys) && forall ns :: ns in order ==> ns in watch
    ensures !Writes(stored, Flatten(order, watch), answers, faults) ==>
      After(stored, Flatten(order, watch), answers, faults, digest) == Current(stored, faults)
    ensures Writes(stored, Flatten(order, watch), answers, faults)
        <==> WatchedKeys(watch) != {} && Succeeds(stored, Flatten(order, watch), answers, faults.(lost := false))
    ensures Writes(stored, Flatten(order, watch), answers, faults) ==>
      Recorded(Loaded(stored, faults).value, BookOf(After(stored, Flatten(order, watch), answers, faults, digest)),
               Flatten(order, watch), answers, digest, watch, k)
  {
    var keys := Flatten(order, watch);
    OrderVisitsAll(order, watch);
    NoElements(keys);
    if Writes(stored, keys, answers, faults) {
      PassRecords(Loaded(stored, faults).value, keys, answers, digest, watch, k);
    }
  }

  /** What a completed pass says about one key. */
  ghost predicate Recorded(before: Book, after: Book, keys: seq<Key>, answers: Answers, digest: Digest, watch: Watch,
                           k: Key)
    requires AllRead(|keys|, answers)
  {
    var visits := ToVisits(keys, 0, answers, digest);
    if k !in WatchedKeys(watch) then Lookup(after, k) == Lookup(before, k)
    else
      && k in keys
      && Lookup(after, k).Some?
      && forall i :: 0 <= i < |keys| && keys[i] == k ==>
           RecordsVisit(Lookup(after, k), visits, i)
  }

  /** The entry has the hash of this visit in its history and, if no later visit has the same key, its date. */
  ghost predicate RecordsVisit(entry: Option<Record>, visits: seq<Visit>, i: nat)
    requires i < |visits|
  {
    && entry.Some? && visits[i].seen.hash in entry.value.history
    && (LastOfItsKey(visits, i) ==> entry.value.lastModified == visits[i].seen.lastModified)
  }

  lemma PassRecords(book: Book, keys: seq<Key>, answers: Answers, digest: Digest, watch: Watch, k: Key)
    requires AllRead(|keys|, answers) && Elements(keys) == WatchedKeys(watch)
    ensures Recorded(book, Apply(book, ToVisits(keys, 0, answers, digest)), keys, answers, digest, watch, k)
  {
    var visits := ToVisits(keys, 0, answers, digest);
    assert k in keys <==> k in Elements(keys);
    if k in WatchedKeys(watch) {
      forall i | 0 <= i < |keys| && keys[i] == k
        ensures RecordsVisit(Lookup(Apply(book, visits), k), visits, i)
      {
        VisitIsRecorded(book, visits, i);
      }
      var i :| 0 <= i < |keys| && keys[i] == k;
      assert RecordsVisit(Lookup(Apply(book, visits), k), visits, i);
    } else {
      UnvisitedIsUntouched(book, visits, k);
    }
  }

  lemma VisitIsRecorded(book: Book, visits: seq<Visit>, i: nat)
    requires i < |visits|
    ensures RecordsVisit(Lookup(Apply(book, visits), visits[i].key), visits, i)
  {
    var k := visits[i].key;
    VisitIsSeen(visits, i);
    ApplyLookup(book, visits, k);
    SeenHashesAreKept(Lookup(book, k), SeenOf(visits, k), visits[i].seen);
  }

  lemma {:induction false} UnvisitedIsUntouched(b: Book, visits: seq<Visit>, k: Key)
    requires forall i :: 0 <= i < |visits| ==> visits[i].key != k
    ensures SeenOf(visits, k) == []
    ensures Lookup(Apply(b, visits), k) == Lookup(b, k)
  {
    if visits == [] {
    } else {
      var n := |visits| - 1;
      UnvisitedIsUntouched(b, visits[..n], k);
      ApplyLast(b, visits, k);
    }
  }
}
