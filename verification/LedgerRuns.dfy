/**
 Whole runs of the ledger: passes that do not overlap, over a cluster and a selection that change in any way between
 (and during) them, with any failures, and the removal of the ConfigMap at any time.
 */
module LedgerRuns {
  import opened Common
  import opened Clock
  import opened Ledger
  import opened HashInput
  import opened HashPass
  import opened PassLaws
  import W = WatchList

  datatype Event =
    | Pass(spec: W.Selection, cluster: W.Listing, order: seq<string>, answers: Answers, faults: Faults)
    | ConfigMapCreated
    | ConfigMapDeleted

  ghost predicate Possible(e: Event) {
    e.Pass? ==>
      && IsEnumeration(e.order, W.ExpectedWatch(e.spec, e.cluster).Keys)
      && (forall ns :: ns in e.order ==> ns in W.ExpectedWatch(e.spec, e.cluster))
      && e.faults.meanwhile.None?
  }

  ghost predicate PossibleRun(events: seq<Event>) {
    forall e :: e in events ==> Possible(e)
  }

  function KeysOfPass(e: Event): seq<Key>
    requires e.Pass? && forall ns :: ns in e.order ==> ns in W.ExpectedWatch(e.spec, e.cluster)
  {
    Flatten(e.order, W.ExpectedWatch(e.spec, e.cluster))
  }

  ghost function Step(stored: Option<Blob>, e: Event, digest: Digest): Option<Blob>
    requires Possible(e)
  {
    match e
    case Pass(_, _, _, answers, faults) => After(stored, KeysOfPass(e), answers, faults, digest)
    case ConfigMapCreated => if stored.None? then Some(Empty) else stored
    case ConfigMapDeleted => None
  }

  ghost function Run(events: seq<Event>, digest: Digest): Option<Blob>
    requires PossibleRun(events)
  {
    if events == [] then None
    else
      var n := |events| - 1;
      assert PossibleRun(events[..n]) && events[n] in events;
      Step(Run(events[..n], digest), events[n], digest)
  }

  lemma PrefixPossible(events: seq<Event>)
    requires PossibleRun(events) && events != []
    ensures PossibleRun(events[..|events| - 1]) && Possible(events[|events| - 1])
  {
    assert events[|events| - 1] in events;
  }

  /** The visits one event adds to what is stored. */
  ghost function Stored(stored: Option<Blob>, e: Event, digest: Digest): seq<Visit>
    requires Possible(e)
  {
    if e.Pass? && Writes(stored, KeysOfPass(e), e.answers, e.faults)
    then ToVisits(KeysOfPass(e), 0, e.answers, digest)
    else []
  }

  /** What stored passes have seen since the ConfigMap was last deleted. */
  ghost function Trace(events: seq<Event>, digest: Digest): seq<Visit>
    requires PossibleRun(events)
  {
    if events == [] then []
    else
      var n := |events| - 1;
      assert PossibleRun(events[..n]) && events[n] in events;
      if events[n].ConfigMapDeleted? then []
      else Trace(events[..n], digest) + Stored(Run(events[..n], digest), events[n], digest)
  }

  lemma StepAppliesVisits(stored: Option<Blob>, e: Event, digest: Digest)
    requires Possible(e) && stored != Some(Corrupt)
    ensures Step(stored, e, digest) != Some(Corrupt)
    ensures BookOf(Step(stored, e, digest))
         == if e.ConfigMapDeleted? then [] else Apply(BookOf(stored), Stored(stored, e, digest))
  {
    if e.Pass? {
      assert Loaded(stored, e.faults).Some? ==> Loaded(stored, e.faults).value == BookOf(stored);
    }
  }

  /** The stored ledger is the trace applied to an empty book: nothing else ever writes to it, and it stays readable. */
  lemma {:induction false} RunAppliesTrace(events: seq<Event>, digest: Digest)
    requires PossibleRun(events)
    ensures Run(events, digest) != Some(Corrupt)
    ensures BookOf(Run(events, digest)) == Apply([], Trace(events, digest))
  {
    if events == [] {
    } else {
      var n := |events| - 1;
      PrefixPossible(events);
      RunAppliesTrace(events[..n], digest);
      var stored := Run(events[..n], digest);
      StepAppliesVisits(stored, events[n], digest);
      ApplyConcat([], Trace(events[..n], digest), Stored(stored, events[n], digest));
    }
  }

  lemma RunKeepsKeysUnique(events: seq<Event>, digest: Digest)
    requires PossibleRun(events)
    ensures Unique(BookOf(Run(events, digest)))
  {
    RunAppliesTrace(events, digest);
    ApplyKeepsUnique([], Trace(events, digest));
  }

  /** In every reachable ledger each namespace has one bucket. */
  lemma RunKeepsBuckets(events: seq<Event>, digest: Digest)
    requires PossibleRun(events)
    ensures OneBucketEach(BookOf(Run(events, digest)))
  {
    RunAppliesTrace(events, digest);
    ApplyKeepsBuckets([], Trace(events, digest));
  }

  // ---------- what an entry says about the run ----------

  function Hashes(seen: seq<Observation>): (hs: seq<string>)
    ensures |hs| == |seen|
    ensures forall i :: 0 <= i < |hs| ==> hs[i] == seen[i].hash
  {
    seq(|seen|, i requires 0 <= i < |seen| => seen[i].hash)
  }

  /** Each hash where it first occurs in the stream, in that order. */
  function FirstOccurrences(hs: seq<string>): seq<string> {
    if hs == [] then []
    else
      var n := |hs| - 1;
      FirstOccurrences(hs[..n]) + if hs[n] in hs[..n] then [] else [hs[n]]
  }

  function FirstIndex(hs: seq<string>, h: string): (i: nat)
    requires h in hs
    ensures i < |hs| && hs[i] == h && h !in hs[..i]
  {
    if hs[0] == h then 0
    else
      assert h in hs[1..];
      var i := 1 + FirstIndex(hs[1..], h);
      assert hs[..i] == [hs[0]] + hs[1..][..i - 1];
      i
  }

  /** De-duplication by first occurrence: same hashes, none twice, in the order in which they first appeared. */
  lemma {:induction false} FirstOccurrencesIsDeduplication(hs: seq<string>)
    ensures forall h :: h in FirstOccurrences(hs) <==> h in hs
    ensures Distinct(FirstOccurrences(hs))
    ensures forall i, j :: 0 <= i < j < |FirstOccurrences(hs)| ==>
      FirstIndex(hs, FirstOccurrences(hs)[i]) < FirstIndex(hs, FirstOccurrences(hs)[j])
  {
    if hs == [] {
    } else {
      var n := |hs| - 1;
      var before, after := FirstOccurrences(hs[..n]), FirstOccurrences(hs);
      FirstOccurrencesIsDeduplication(hs[..n]);
      assert hs == hs[..n] + [hs[n]];
      forall i, j | 0 <= i < j < |after|
        ensures FirstIndex(hs, after[i]) < FirstIndex(hs, after[j])
        ensures after[i] != after[j]
      {
        assert after[i] in before;
        FirstIndexInPrefix(hs, n, after[i]);
        if j < |before| {
          FirstIndexInPrefix(hs, n, after[j]);
        } else {
          assert hs[..FirstIndex(hs, hs[n])] <= hs;
          assert FirstIndex(hs, hs[n]) == n;
        }
      }
    }
  }

  lemma FirstIndexInPrefix(hs: seq<string>, n: nat, h: string)
    requires n <= |hs| && h in hs[..n]
    ensures h in hs && FirstIndex(hs, h) == FirstIndex(hs[..n], h)
  {
    var i, j := FirstIndex(hs[..n], h), FirstIndex(hs, h);
    assert hs[..n][..i] == hs[..i];
    assert forall x :: 0 <= x < i ==> hs[..i][x] == hs[x];
    assert forall x :: 0 <= x < j ==> hs[..j][x] == hs[x];
  }

  function Summary(seen: seq<Observation>): Option<Record> {
    if seen == [] then None
    else Some(Record(seen[0].created, seen[|seen| - 1].lastModified, FirstOccurrences(Hashes(seen)), seen[0].kind))
  }

  lemma OneMoreHash(seen: seq<Observation>)
    requires seen != []
    ensures
      var n := |seen| - 1;
      var before := FirstOccurrences(Hashes(seen[..n]));
      FirstOccurrences(Hashes(seen)) == if seen[n].hash in before then before else before + [seen[n].hash]
  {
    var n := |seen| - 1;
    var before := FirstOccurrences(Hashes(seen[..n]));
    assert before + [] == before;
    assert Hashes(seen)[..n] == Hashes(seen[..n]);
    FirstOccurrencesIsDeduplication(Hashes(seen[..n]));
  }

  lemma {:induction false} AbsorbAllIsSummary(seen: seq<Observation>)
    ensures AbsorbAll(None, seen) == Summary(seen)
  {
    if seen == [] {
    } else {
      var n := |seen| - 1;
      AbsorbAllIsSummary(seen[..n]);
      OneMoreHash(seen);
      if n == 0 {
        assert seen[..n] == [] && Hashes(seen[..n]) == [];
        assert FirstOccurrences(Hashes(seen)) == [] + [seen[n].hash] == [seen[n].hash];
      } else {
        assert seen[..n][0] == seen[0];
      }
    }
  }

  /**
   Over every run an entry says exactly what was seen of its secret since the ConfigMap was last deleted: the history
   is the stream of hashes de-duplicated by first occurrence, the date is the latest seen, and the creation time and
   the type are those of the first sight; a secret never seen has no entry.
   */
  lemma EntrySummarizesRun(events: seq<Event>, digest: Digest, k: Key)
    requires PossibleRun(events)
    ensures Lookup(BookOf(Run(events, digest)), k) == Summary(SeenOf(Trace(events, digest), k))
  {
    RunAppliesTrace(events, digest);
    ApplyLookup([], Trace(events, digest), k);
    AbsorbAllIsSummary(SeenOf(Trace(events, digest), k));
  }

  // ---------- the ledger does get written ----------

  /** The ConfigMap has been created, and not deleted since. */
  predicate Created(events: seq<Event>) {
    events != [] &&
    (var last := events[|events| - 1];
     last.ConfigMapCreated? || (last.Pass? && Created(events[..|events| - 1])))
  }

  lemma {:induction false} CreatedIsStored(events: seq<Event>, digest: Digest)
    requires PossibleRun(events)
    ensures Run(events, digest).Some? <==> Created(events)
  {
    if events == [] {
    } else {
      PrefixPossible(events);
      CreatedIsStored(events[..|events| - 1], digest);
    }
  }

  /** No call of the pass fails, no reply is lost, and nobody else interferes. */
  predicate Undisturbed(e: Event) {
    e.Pass? && e.faults == Faults(false, false, false, false, None)
  }

  predicate AllAnswered(e: Event)
    requires e.Pass? && forall ns :: ns in e.order ==> ns in W.ExpectedWatch(e.spec, e.cluster)
  {
    |KeysOfPass(e)| <= |e.answers| && forall i :: 0 <= i < |KeysOfPass(e)| ==> e.answers[i].Some?
  }

  /**
   Once the ConfigMap exists, written or not, an undisturbed pass whose reads all succeed records every secret it
   watches: there is an entry, and it dates from a read of that secret in this very pass.
  */
  lemma UndisturbedPassRecords(events: seq<Event>, e: Event, digest: Digest, k: Key)
    requires PossibleRun(events) && Possible(e) && Undisturbed(e) && Created(events) && WatchedIn(e, k)
    requires AllAnswered(e)
    ensures PossibleRun(events + [e])
    ensures
      var entry := Lookup(BookOf(Run(events + [e], digest)), k);
      && entry.Some?
      && exists i | 0 <= i < |KeysOfPass(e)| && KeysOfPass(e)[i] == k ::
           var s := e.answers[i].value;
           && digest(Canonical(s.data)) in entry.value.history
           && entry.value.lastModified == Format(if s.managed == [] then s.created else s.managed[|s.managed| - 1])
  {
    var keys := KeysOfPass(e);
    var book := BookOf(Run(events, digest));
    var visits := VisitsOf(e, digest);
    UndisturbedPassStores(events, e, digest, k);
    var i := LastVisit(keys, k);
    assert visits[i].seen == Observe(e.answers[i].value, digest);
    VisitIsRecorded(book, visits, i);
    assert LastOfItsKey(visits, i);
  }

  ghost function VisitsOf(e: Event, digest: Digest): (visits: seq<Visit>)
    requires e.Pass? && Possible(e) && AllAnswered(e)
    ensures |visits| == |KeysOfPass(e)|
    ensures forall i :: 0 <= i < |visits| ==> visits[i] == Visit(KeysOfPass(e)[i], Observe(e.answers[i].value, digest))
  {
    assert AllRead(|KeysOfPass(e)|, e.answers);
    ToVisits(KeysOfPass(e), 0, e.answers, digest)
  }

  lemma WatchedIsVisited(e: Event, k: Key)
    requires Possible(e) && WatchedIn(e, k)
    ensures k in KeysOfPass(e)
  {
    FlattenContains(e.order, W.ExpectedWatch(e.spec, e.cluster), k);
    assert k.namespace in Elements(e.order);
  }

  lemma UndisturbedPassStores(events: seq<Event>, e: Event, digest: Digest, k: Key)
    requires PossibleRun(events) && Possible(e) && Undisturbed(e) && Created(events) && WatchedIn(e, k)
    requires AllAnswered(e)
    ensures k in KeysOfPass(e) && PossibleRun(events + [e])
    ensures BookOf(Run(events + [e], digest)) == Apply(BookOf(Run(events, digest)), VisitsOf(e, digest))
  {
    RunSplits(events, e, digest);
    RunAppliesTrace(events, digest);
    CreatedIsStored(events, digest);
    WatchedIsVisited(e, k);
    UndisturbedPassWrites(Run(events, digest), e, digest);
  }

  lemma UndisturbedPassWrites(stored: Option<Blob>, e: Event, digest: Digest)
    requires Possible(e) && Undisturbed(e) && AllAnswered(e) && KeysOfPass(e) != []
    requires stored.Some? && stored != Some(Corrupt)
    ensures BookOf(Step(stored, e, digest)) == Apply(BookOf(stored), VisitsOf(e, digest))
  {
    assert AllRead(|KeysOfPass(e)|, e.answers);
    WrittenBook(stored, KeysOfPass(e), e.answers, e.faults, digest);
  }

  lemma LastVisit(keys: seq<Key>, k: Key) returns (i: nat)
    requires k in keys
    ensures i < |keys| && keys[i] == k && forall j :: i < j < |keys| ==> keys[j] != k
  {
    i := |keys| - 1;
    while keys[i] != k
      invariant i < |keys| && forall j :: i < j < |keys| ==> keys[j] != k
      decreases i
    {
      assert i > 0 by {
        var j :| 0 <= j < |keys| && keys[j] == k;
      }
      i := i - 1;
    }
  }

  /** The second pass of a cluster's life: the first has created the ConfigMap, this one records what it watches. */
  lemma SecondPassRecords(e: Event, digest: Digest, k: Key)
    requires Possible(e) && Undisturbed(e) && WatchedIn(e, k)
    requires AllAnswered(e)
    ensures PossibleRun([ConfigMapCreated, e])
    ensures Lookup(BookOf(Run([ConfigMapCreated, e], digest)), k).Some?
  {
    UndisturbedPassRecords([ConfigMapCreated], e, digest, k);
    assert [ConfigMapCreated] + [e] == [ConfigMapCreated, e];
  }

  // ---------- exclusion and disappearance ----------

  predicate WatchedIn(e: Event, k: Key) {
    e.Pass? && W.Watches(W.ExpectedWatch(e.spec, e.cluster), k.namespace, k.name)
  }

  lemma UnwatchedIsUnvisited(e: Event, k: Key)
    requires Possible(e) && e.Pass? && !WatchedIn(e, k)
    ensures forall i :: 0 <= i < |KeysOfPass(e)| ==> KeysOfPass(e)[i] != k
  {
    var watch := W.ExpectedWatch(e.spec, e.cluster);
    FlattenContains(e.order, watch, k);
  }

  /** A secret no pass watches never enters the ledger. */
  lemma {:induction false} UnwatchedNeverEnters(events: seq<Event>, digest: Digest, k: Key)
    requires PossibleRun(events)
    requires forall e :: e in events ==> !WatchedIn(e, k)
    ensures Lookup(BookOf(Run(events, digest)), k).None?
  {
    if events == [] {
    } else {
      var n := |events| - 1;
      PrefixPossible(events);
      assert forall e :: e in events[..n] ==> e in events;
      UnwatchedNeverEnters(events[..n], digest, k);
      RunAppliesTrace(events[..n], digest);
      assert events[n] in events;
      StepLeavesUnwatched(Run(events[..n], digest), events[n], digest, k);
    }
  }

  lemma StepLeavesUnwatched(stored: Option<Blob>, e: Event, digest: Digest, k: Key)
    requires Possible(e) && !WatchedIn(e, k) && stored != Some(Corrupt)
    ensures !e.ConfigMapDeleted? ==> Lookup(BookOf(Step(stored, e, digest)), k) == Lookup(BookOf(stored), k)
    ensures e.ConfigMapDeleted? ==> Lookup(BookOf(Step(stored, e, digest)), k).None?
  {
    StepAppliesVisits(stored, e, digest);
    if e.Pass? {
      UnwatchedIsUnvisited(e, k);
    }
    UnvisitedIsUntouched(BookOf(stored), Stored(stored, e, digest), k);
  }

  lemma RunSplits(events: seq<Event>, e: Event, digest: Digest)
    requires PossibleRun(events) && Possible(e)
    ensures PossibleRun(events + [e])
    ensures Run(events + [e], digest) == Step(Run(events, digest), e, digest)
  {
    var all := events + [e];
    assert all[..|all| - 1] == events;
  }

  /** A secret excluded by every pass of a run never enters the ledger, whatever else the run does. */
  lemma ExcludedNeverEnters(events: seq<Event>, digest: Digest, k: Key)
    requires PossibleRun(events)
    requires forall e :: e in events && e.Pass? ==> W.Excluded(e.spec, k.namespace, k.name)
    ensures Lookup(BookOf(Run(events, digest)), k).None?
  {
    forall e | e in events
      ensures !WatchedIn(e, k)
    {
      if e.Pass? {
        W.WatchListIsExact(e.spec, e.cluster, k.namespace, k.name);
      }
    }
    UnwatchedNeverEnters(events, digest, k);
  }

  /** An entry whose secret is no longer watched, excluded or gone, is kept as it is by every later pass. */
  lemma {:induction false} AbandonedEntryIsFrozen(before: seq<Event>, after: seq<Event>, digest: Digest, k: Key)
    requires PossibleRun(before) && PossibleRun(after)
    requires forall e :: e in after ==> !e.ConfigMapDeleted? && !WatchedIn(e, k)
    ensures PossibleRun(before + after)
    ensures Lookup(BookOf(Run(before + after, digest)), k) == Lookup(BookOf(Run(before, digest)), k)
  {
    if after == [] {
      assert before + after == before;
    } else {
      var n := |after| - 1;
      PrefixPossible(after);
      assert forall e :: e in after[..n] ==> e in after;
      assert after[n] in after;
      AbandonedEntryIsFrozen(before, after[..n], digest, k);
      RunSplits(before + after[..n], after[n], digest);
      assert before + after[..n] + [after[n]] == before + after;
      RunAppliesTrace(before + after[..n], digest);
      StepLeavesUnwatched(Run(before + after[..n], digest), after[n], digest, k);
    }
  }

  // ---------- where the last history entry is the current hash, and where it is not ----------

  /**
   The last entry of the history is the hash seen last exactly when every hash seen since that one first appeared had
   already been seen before it.
   */
  lemma LastEntryIsCurrent(hs: seq<string>)
    requires hs != []
    ensures FirstOccurrences(hs) != []
    ensures
      var current := hs[|hs| - 1];
      FirstOccurrences(hs)[|FirstOccurrences(hs)| - 1] == current
      <==> forall p :: FirstIndex(hs, current) < p < |hs| ==> hs[p] in hs[..FirstIndex(hs, current) + 1]
  {
    var current := hs[|hs| - 1];
    var first := FirstIndex(hs, current);
    FirstOccurrencesIsDeduplication(hs);
    var history := FirstOccurrences(hs);
    assert current in history;
    var last := |history| - 1;
    var at :| 0 <= at <= last && history[at] == current;
    var l := FirstIndex(hs, history[last]);
    if history[last] == current {
      forall p | first < p < |hs|
        ensures hs[p] in hs[..first + 1]
      {
        assert hs[p] in history;
        var q :| 0 <= q <= last && history[q] == hs[p];
        assert FirstIndex(hs, history[q]) <= first;
        assert hs[..first + 1][FirstIndex(hs, history[q])] == hs[p];
      }
    } else {
      assert first < l;
      assert hs[l] !in hs[..first + 1] by {
        assert hs[..first + 1] == hs[..l][..first + 1];
      }
    }
  }

  /** A secret rotated away and back: the history ends with the hash it no longer has. */
  lemma RotatedBackIsNotLast(a: string, b: string)
    requires a != b
    ensures FirstOccurrences([a, b, a]) == [a, b]
  {
    assert [a, b, a][..2] == [a, b] && [a, b][..1] == [a] && [a][..0] == [];
    assert FirstOccurrences([a]) == [a];
    assert FirstOccurrences([a, b]) == [a, b];
  }

  // ---------- passes that overlap ----------

  /** The hashes not known before, each where it first occurs. */
  function NewHashes(known: seq<string>, hs: seq<string>): seq<string> {
    if hs == [] then []
    else
      var n := |hs| - 1;
      NewHashes(known, hs[..n]) + if hs[n] in known || hs[n] in hs[..n] then [] else [hs[n]]
  }

  /** What remains of a sequence when the elements of another are dropped. */
  function Dropping(hs: seq<string>, dropped: seq<string>): seq<string> {
    if hs == [] then []
    else
      var n := |hs| - 1;
      Dropping(hs[..n], dropped) + if hs[n] in dropped then [] else [hs[n]]
  }

  lemma {:induction false} NewHashesMembers(known: seq<string>, hs: seq<string>)
    ensures forall h :: h in NewHashes(known, hs) <==> h in hs && h !in known
    ensures Distinct(NewHashes(known, hs))
  {
    if hs == [] {
    } else {
      var n := |hs| - 1;
      NewHashesMembers(known, hs[..n]);
      assert hs == hs[..n] + [hs[n]];
    }
  }

  lemma DroppingOneMore(hs: seq<string>, h: string, dropped: seq<string>)
    ensures Dropping(hs + [h], dropped) == Dropping(hs, dropped) + if h in dropped then [] else [h]
  {
    assert (hs + [h])[..|hs + [h]| - 1] == hs;
  }

  /** Knowing more only drops: the order of what remains is the same. */
  lemma {:induction false} KnowingMoreDrops(known: seq<string>, more: seq<string>, hs: seq<string>)
    ensures NewHashes(known + more, hs) == Dropping(NewHashes(known, hs), more)
  {
    if hs == [] {
    } else {
      var n := |hs| - 1;
      KnowingMoreDrops(known, more, hs[..n]);
      var before := NewHashes(known, hs[..n]);
      if hs[n] in known || hs[n] in hs[..n] {
        assert before + [] == before;
      } else {
        DroppingOneMore(before, hs[n], more);
      }
    }
  }

  lemma {:induction false} DroppingPrefix(xs: seq<string>, ys: seq<string>)
    requires Distinct(xs + ys)
    ensures Dropping(xs + ys, xs) == ys
  {
    if ys == [] {
      assert xs + ys == xs;
      DroppingAll(xs, xs);
    } else {
      var n := |ys| - 1;
      assert xs + ys == (xs + ys[..n]) + [ys[n]];
      assert Distinct(xs + ys[..n]) by {
        assert xs + ys[..n] == (xs + ys)[..|xs| + n];
      }
      DroppingPrefix(xs, ys[..n]);
      DroppingOneMore(xs + ys[..n], ys[n], xs);
      assert ys[n] !in xs by {
        assert forall i :: 0 <= i < |xs| ==> (xs + ys)[i] == xs[i];
        assert (xs + ys)[|xs| + n] == ys[n];
      }
    }
  }

  lemma {:induction false} DroppingAll(hs: seq<string>, dropped: seq<string>)
    requires forall h :: h in hs ==> h in dropped
    ensures Dropping(hs, dropped) == []
  {
    if hs == [] {
    } else {
      assert hs[|hs| - 1] in hs;
      DroppingAll(hs[..|hs| - 1], dropped);
    }
  }

  lemma CancelPrefix(xs: seq<string>, ys: seq<string>, zs: seq<string>)
    ensures xs + ys == xs + zs <==> ys == zs
  {
    assert ys == (xs + ys)[|xs|..] && zs == (xs + zs)[|xs|..];
  }

  lemma PrefixIsDropped(xs: seq<string>, ys: seq<string>)
    requires Distinct(ys)
    ensures ys == xs + Dropping(ys, xs) <==> xs <= ys
  {
    if xs <= ys {
      assert ys == xs + ys[|xs|..];
      DroppingPrefix(xs, ys[|xs|..]);
    }
  }

  /** Learning `xs` and then `ys` gives what learning `ys` alone gives, iff the news in `xs` opens the news in `ys`. */
  lemma OneListSuffices(known: seq<string>, xs: seq<string>, ys: seq<string>)
    ensures
      var first, second := NewHashes(known, xs), NewHashes(known, ys);
      known + second == known + first + NewHashes(known + first, ys) <==> first <= second
  {
    var first, second := NewHashes(known, xs), NewHashes(known, ys);
    KnowingMoreDrops(known, first, ys);
    NewHashesMembers(known, ys);
    PrefixIsDropped(first, second);
    assert known + first + Dropping(second, first) == known + (first + Dropping(second, first));
    CancelPrefix(known, second, first + Dropping(second, first));
  }

  function HistoryOf(entry: Option<Record>): seq<string> {
    if entry.Some? then entry.value.history else []
  }

  lemma {:induction false} AbsorbAllLearns(entry: Option<Record>, seen: seq<Observation>)
    requires seen != []
    ensures
      var known := HistoryOf(entry);
      AbsorbAll(entry, seen) == Some(Record(
        if entry.Some? then entry.value.created else seen[0].created,
        seen[|seen| - 1].lastModified,
        known + NewHashes(known, Hashes(seen)),
        if entry.Some? then entry.value.kind else seen[0].kind))
  {
    var n := |seen| - 1;
    var known := HistoryOf(entry);
    assert Hashes(seen)[..n] == Hashes(seen[..n]);
    if n == 0 {
      assert seen[..n] == [] && Hashes(seen[..n]) == [];
      assert NewHashes(known, Hashes(seen)) == if seen[n].hash in known then [] else [seen[n].hash];
      assert known + [] == known;
    } else {
      AbsorbAllLearns(entry, seen[..n]);
      NewHashesMembers(known, Hashes(seen[..n]));
      var before := NewHashes(known, Hashes(seen[..n]));
      assert before + [] == before;
      assert (known + before) + [seen[n].hash] == known + (before + [seen[n].hash]);
    }
  }

  /**
   The later of two overlapping writes loses nothing of the earlier one: the first pass saw nothing; or the second saw
   nothing and the first nothing new; or both saw the secret, what was new to the first opens what was new to the
   second, and a new entry has the same creation and type either way.
  */
  ghost predicate LosesNothing(entry: Option<Record>, first: seq<Observation>, second: seq<Observation>) {
    first != [] ==>
      var news, news' := NewHashes(HistoryOf(entry), Hashes(first)), NewHashes(HistoryOf(entry), Hashes(second));
      if second == [] then entry.Some? && news == [] && first[|first| - 1].lastModified == entry.value.lastModified
      else
        && news <= news'
        && (entry.None? ==> first[0].created == second[0].created && first[0].kind == second[0].kind)
  }

  lemma AbsorbsTheSame(entry: Option<Record>, first: seq<Observation>, second: seq<Observation>)
    ensures AbsorbAll(entry, second) == AbsorbAll(AbsorbAll(entry, first), second)
       <==> LosesNothing(entry, first, second)
  {
    var known := HistoryOf(entry);
    if first != [] {
      AbsorbAllLearns(entry, first);
      if second != [] {
        AbsorbAllLearns(entry, second);
        AbsorbAllLearns(AbsorbAll(entry, first), second);
        OneListSuffices(known, Hashes(first), Hashes(second));
      } else if entry.Some? {
        assert known + NewHashes(known, Hashes(first)) == known <==> NewHashes(known, Hashes(first)) == [];
      }
    }
  }

  /**
   Two passes load the same ledger and then write one after the other: the second write stores `Apply(b, second)`. For
   every secret this agrees with running the passes one after the other exactly when the later write loses nothing.
   */
  lemma OverlapLosesNothing(b: Book, first: seq<Visit>, second: seq<Visit>, k: Key)
    ensures Lookup(Apply(b, second), k) == Lookup(Apply(Apply(b, first), second), k)
       <==> LosesNothing(Lookup(b, k), SeenOf(first, k), SeenOf(second, k))
  {
    ApplyLookup(b, second, k);
    ApplyLookup(b, first, k);
    ApplyLookup(Apply(b, first), second, k);
    AbsorbsTheSame(Lookup(b, k), SeenOf(first, k), SeenOf(second, k));
  }

  /** What a second pass stores when the first one writes between its load and its own write. */
  ghost function Overlapped(stored: Option<Blob>, keys: seq<Key>, answers: Answers, faults: Faults,
                            keys': seq<Key>, answers': Answers, faults': Faults, digest: Digest): Option<Blob> {
    var first := After(stored, keys, answers, faults, digest);
    After(stored, keys', answers', faults'.(meanwhile := Some(first)), digest)
  }

  /**
   Overlapping passes that both write leave the ledger that passes one after the other would leave, as a map, exactly
   when no secret loses anything.
   */
  lemma OverlapIsSequentialIff(stored: Option<Blob>, keys: seq<Key>, answers: Answers, faults: Faults,
                               keys': seq<Key>, answers': Answers, faults': Faults, digest: Digest)
    requires faults.meanwhile.None? && faults'.meanwhile.None?
    requires Writes(stored, keys, answers, faults)
    requires Writes(After(stored, keys, answers, faults, digest), keys', answers', faults')
    ensures
      var sequential := After(After(stored, keys, answers, faults, digest), keys', answers', faults', digest);
      var visits, visits' := ToVisits(keys, 0, answers, digest), ToVisits(keys', 0, answers', digest);
      AsMap(BookOf(Overlapped(stored, keys, answers, faults, keys', answers', faults', digest)))
      == AsMap(BookOf(sequential))
      <==> forall k :: LosesNothing(Lookup(BookOf(stored), k), SeenOf(visits, k), SeenOf(visits', k))
  {
    var visits, visits' := ToVisits(keys, 0, answers, digest), ToVisits(keys', 0, answers', digest);
    var first := After(stored, keys, answers, faults, digest);
    WrittenBook(stored, keys, answers, faults, digest);
    WrittenBook(first, keys', answers', faults', digest);
    WrittenBook(stored, keys', answers', faults'.(meanwhile := Some(first)), digest);
    assert BookOf(first) == Apply(BookOf(stored), visits);
    OverlappedMaps(BookOf(stored), visits, visits');
  }

  lemma WrittenBook(stored: Option<Blob>, keys: seq<Key>, answers: Answers, faults: Faults, digest: Digest)
    requires Writes(stored, keys, answers, faults)
    ensures After(stored, keys, answers, faults, digest)
         == Some(Encoded(Apply(BookOf(stored), ToVisits(keys, 0, answers, digest))))
  {
  }

  lemma OverlappedMaps(b: Book, first: seq<Visit>, second: seq<Visit>)
    ensures AsMap(Apply(b, second)) == AsMap(Apply(Apply(b, first), second))
       <==> forall k :: LosesNothing(Lookup(b, k), SeenOf(first, k), SeenOf(second, k))
  {
    var overlapped, sequential := Apply(b, second), Apply(Apply(b, first), second);
    forall k
      ensures LosesNothing(Lookup(b, k), SeenOf(first, k), SeenOf(second, k)) <==>
              Lookup(overlapped, k) == Lookup(sequential, k)
    {
      OverlapLosesNothing(b, first, second, k);
    }
    if forall k :: Lookup(overlapped, k) == Lookup(sequential, k) {
      MapFromLookups(overlapped, AsMap(sequential));
    }
    if AsMap(overlapped) == AsMap(sequential) {
      forall k
        ensures Lookup(overlapped, k) == Lookup(sequential, k)
      {
        assert k in AsMap(overlapped) <==> k in AsMap(sequential);
      }
    }
  }
}
