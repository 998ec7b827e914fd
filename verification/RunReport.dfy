/** From a whole run of hashing passes to the message of the day. */
module RunReport {
  import opened Common
  import opened Clock
  import opened Ledger
  import opened HashPass
  import opened PassLaws
  import opened LedgerRuns
  import opened Report

  /** Times written by a pass are formatted times, so they parse again. */
  ghost predicate Dated(visits: seq<Visit>) {
    forall v :: v in visits ==> v.seen.created.Second? && v.seen.lastModified.Second?
  }

  lemma {:induction false} TraceIsDated(events: seq<Event>, digest: Digest)
    requires PossibleRun(events)
    ensures Dated(Trace(events, digest))
  {
    if events == [] {
    } else {
      var n := |events| - 1;
      PrefixPossible(events);
      TraceIsDated(events[..n], digest);
      var stored := Stored(Run(events[..n], digest), events[n], digest);
      forall v | v in stored
        ensures v.seen.created.Second? && v.seen.lastModified.Second?
      {
        var i :| 0 <= i < |stored| && stored[i] == v;
      }
    }
  }

  lemma {:induction false} SeenIsDated(visits: seq<Visit>, k: Key)
    requires Dated(visits)
    ensures forall o :: o in SeenOf(visits, k) ==> o.created.Second? && o.lastModified.Second?
  {
    if visits == [] {
    } else {
      var n := |visits| - 1;
      assert visits[n] in visits;
      assert forall v :: v in visits[..n] ==> v in visits;
      SeenIsDated(visits[..n], k);
    }
  }

  lemma {:induction false} FlatIsRows(b: Book, e: Entry)
    ensures e in Flat(b) <==> exists i, j :: 0 <= i < |b| && 0 <= j < |b[i].rows| && e == Entry(b[i].name, b[i].rows[j])
  {
    if b == [] {
    } else {
      var n := |b| - 1;
      var last := EntriesOf(b[n].name, b[n].rows);
      FlatIsRows(b[..n], e);
      if e in Flat(b[..n]) {
        var i, j :| 0 <= i < n && 0 <= j < |b[..n][i].rows| && e == Entry(b[..n][i].name, b[..n][i].rows[j]);
        assert e == Entry(b[i].name, b[i].rows[j]);
      }
      if e in last {
        var j :| 0 <= j < |last| && last[j] == e;
        assert e == Entry(b[n].name, b[n].rows[j]);
      }
      if i, j :| 0 <= i < |b| && 0 <= j < |b[i].rows| && e == Entry(b[i].name, b[i].rows[j]) {
        FlatContains(b, i, j);
      }
    }
  }

  /** With unique keys, the flattened ledger holds exactly the entry the lookup of its key finds. */
  lemma FlatIsLookup(b: Book, k: Key, r: Record)
    requires Unique(b)
    ensures Entry(k.namespace, Row(k.name, r)) in Flat(b) <==> Lookup(b, k) == Some(r)
  {
    var e := Entry(k.namespace, Row(k.name, r));
    FlatIsRows(b, e);
    if e in Flat(b) {
      var i, j :| 0 <= i < |b| && 0 <= j < |b[i].rows| && e == Entry(b[i].name, b[i].rows[j]);
      MapShowsEveryRow(b, i, j);
    }
    if Lookup(b, k) == Some(r) {
      var i := HolderIndex(b, k);
      var j := RowIndex(b[i].rows, k.name);
      assert e == Entry(b[i].name, b[i].rows[j]);
    }
  }

  /** Every entry a run leaves behind has readable times, so the report of a run never stops on one. */
  lemma RunIsReadable(events: seq<Event>, digest: Digest)
    requires PossibleRun(events)
    ensures AllReadable(Flat(BookOf(Run(events, digest))))
  {
    var b := BookOf(Run(events, digest));
    RunKeepsKeysUnique(events, digest);
    forall e | e in Flat(b)
      ensures Readable(e)
    {
      var k := Key(e.namespace, e.row.name);
      FlatIsLookup(b, k, e.row.record);
      EntrySummarizesRun(events, digest, k);
      TraceIsDated(events, digest);
      SeenIsDated(Trace(events, digest), k);
    }
  }

  ghost predicate Announces(blocks: seq<Block>, k: Key) {
    exists s :: Detail(s) in blocks && s.namespace == k.namespace && s.name == k.name
  }

  lemma MessageShowsStale(b: Book, now: int, days: int, s: SecretStatus)
    ensures Detail(s) in Message(b, now, days) <==>
            exists e :: e in Flat(b) && IsStale(e, now, days) && s == StatusOf(e, days)
  {
    var stale := StaleEntries(Flat(b), now, days);
    var listed := StaleStatuses(b, now, days);
    if Detail(s) in Message(b, now, days) {
      assert Detail(s) in Details(listed);
      var i :| 0 <= i < |listed| && Details(listed)[i] == Detail(s);
      assert stale[i] in stale;
    }
    if e :| e in Flat(b) && IsStale(e, now, days) && s == StatusOf(e, days) {
      assert e in stale;
      var i :| 0 <= i < |stale| && stale[i] == e;
      assert Details(listed)[i] == Detail(s);
      assert Detail(s) in Details(listed);
    }
  }

  /** With unique keys, a secret is announced exactly when the entry the lookup finds is stale, for any threshold. */
  lemma AnnouncesStaleEntries(b: Book, now: int, days: int, k: Key)
    requires Unique(b)
    ensures Announces(Message(b, now, days), k) <==>
            Lookup(b, k).Some? && IsStale(Entry(k.namespace, Row(k.name, Lookup(b, k).value)), now, days)
  {
    if Announces(Message(b, now, days), k) {
      var s :| Detail(s) in Message(b, now, days) && s.namespace == k.namespace && s.name == k.name;
      MessageShowsStale(b, now, days, s);
      var e :| e in Flat(b) && IsStale(e, now, days) && s == StatusOf(e, days);
      assert e == Entry(k.namespace, Row(k.name, e.row.record));
      FlatIsLookup(b, k, e.row.record);
    }
    if Lookup(b, k).Some? {
      var e := Entry(k.namespace, Row(k.name, Lookup(b, k).value));
      FlatIsLookup(b, k, Lookup(b, k).value);
      MessageShowsStale(b, now, days, StatusOf(e, days));
    }
  }

  /**
   End to end: after any run of passes, the message of the day names a secret exactly when some stored pass saw it
   since the ledger was last deleted and the modification time seen last is further than the threshold from now.
   */
  lemma MessageTellsTheRun(events: seq<Event>, digest: Digest, now: int, days: int, k: Key)
    requires PossibleRun(events)
    requires 1 <= days <= MAX_EXACT_DAYS
    ensures
      var seen := SeenOf(Trace(events, digest), k);
      Announces(Message(BookOf(Run(events, digest)), now, days), k) <==>
      seen != [] && TrulyStale(now, Parse(seen[|seen| - 1].lastModified).GetOr(0), days)
  {
    var b := BookOf(Run(events, digest));
    EntrySummarizesRun(events, digest, k);
    RunKeepsKeysUnique(events, digest);
    AnnouncesStaleEntries(b, now, days, k);
    if Lookup(b, k).Some? {
      RunIsReadable(events, digest);
      FlatIsLookup(b, k, Lookup(b, k).value);
      ExactUpToLimit(now, Parse(Lookup(b, k).value.lastModified).GetOr(0), days);
    }
  }

  function KeyOf(s: SecretStatus): Key {
    Key(s.namespace, s.name)
  }

  function EntryKey(e: Entry): Key {
    Key(e.namespace, e.row.name)
  }

  /** With unique keys no two rows of the flattened ledger have the same key. */
  lemma FlatKeysDiffer(b: Book)
    requires Unique(b)
    ensures forall x, y :: 0 <= x < y < |Flat(b)| ==> EntryKey(Flat(b)[x]) != EntryKey(Flat(b)[y])
  {
    FlatIsInOrder(b);
    forall x, y | 0 <= x < y < |Flat(b)|
      ensures EntryKey(Flat(b)[x]) != EntryKey(Flat(b)[y])
    {
      var i, j := RowAt(b, x);
      var i', j' := RowAt(b, y);
      assert StandsAt(b, i, j) && StandsAt(b, i', j');
      assert b[i].name != b[i'].name || b[i].rows[j].name != b[i'].rows[j'].name;
    }
  }

  /** The row that stands at a place of the flattened ledger. */
  lemma RowAt(b: Book, x: nat) returns (i: nat, j: nat)
    requires x < Offset(b, |b|)
    ensures i < |b| && j < |b[i].rows| && x == Offset(b, i) + j
  {
    i := |b| - 1;
    while Offset(b, i) > x
      invariant i < |b| && x < Offset(b, i + 1)
      decreases i
    {
      i := i - 1;
    }
    j := x - Offset(b, i);
  }

  /** A filter keeps elements of different keys apart. */
  lemma {:induction false} StaleKeysDiffer(es: seq<Entry>, now: int, days: int)
    requires forall x, y :: 0 <= x < y < |es| ==> EntryKey(es[x]) != EntryKey(es[y])
    ensures
      var stale := StaleEntries(es, now, days);
      forall x, y :: 0 <= x < y < |stale| ==> EntryKey(stale[x]) != EntryKey(stale[y])
  {
    if es == [] {
    } else {
      var n := |es| - 1;
      var before, stale := StaleEntries(es[..n], now, days), StaleEntries(es, now, days);
      StaleKeysDiffer(es[..n], now, days);
      assert es == es[..n] + [es[n]];
      StaleEntriesAppend(es[..n], es[n], now, days);
      forall x, y | 0 <= x < y < |stale|
        ensures EntryKey(stale[x]) != EntryKey(stale[y])
      {
        if y == |before| {
          assert before[x] in es[..n];
          var z :| 0 <= z < n && es[z] == before[x];
        }
      }
    }
  }

  /** The secrets the message names. */
  ghost function Named(statuses: seq<SecretStatus>): set<Key> {
    set s | s in statuses :: KeyOf(s)
  }

  lemma {:induction false} DistinctKeysCount(statuses: seq<SecretStatus>)
    requires forall x, y :: 0 <= x < y < |statuses| ==> KeyOf(statuses[x]) != KeyOf(statuses[y])
    ensures |Named(statuses)| == |statuses|
  {
    if statuses == [] {
    } else {
      var n := |statuses| - 1;
      DistinctKeysCount(statuses[..n]);
      assert statuses == statuses[..n] + [statuses[n]];
      assert Named(statuses) == Named(statuses[..n]) + {KeyOf(statuses[n])};
      assert KeyOf(statuses[n]) !in Named(statuses[..n]);
    }
  }

  lemma DetailIsListed(b: Book, now: int, days: int, s: SecretStatus)
    ensures Detail(s) in Message(b, now, days) <==> s in StaleStatuses(b, now, days)
  {
    var listed := StaleStatuses(b, now, days);
    assert Detail(s) in Message(b, now, days) <==> Detail(s) in Details(listed);
    if s in listed {
      var x :| 0 <= x < |listed| && listed[x] == s;
      assert Details(listed)[x] == Detail(s);
    }
    if Detail(s) in Details(listed) {
      var x :| 0 <= x < |listed| && Details(listed)[x] == Detail(s);
      assert listed[x] == s;
    }
  }

  lemma NamedIsAnnounced(b: Book, now: int, days: int, k: Key)
    ensures k in Named(StaleStatuses(b, now, days)) <==> Announces(Message(b, now, days), k)
  {
    forall s
      ensures Detail(s) in Message(b, now, days) <==> s in StaleStatuses(b, now, days)
    {
      DetailIsListed(b, now, days, s);
    }
  }

  /** The list of a ledger with unique keys names each secret once. */
  lemma ListedOnce(b: Book, now: int, days: int)
    requires Unique(b)
    ensures
      var listed := StaleStatuses(b, now, days);
      && (forall x, y :: 0 <= x < y < |listed| ==> KeyOf(listed[x]) != KeyOf(listed[y]))
      && |listed| == |Named(listed)|
  {
    FlatKeysDiffer(b);
    StaleKeysDiffer(Flat(b), now, days);
    DistinctKeysCount(StaleStatuses(b, now, days));
  }

  /** The secrets to be announced, as a set. */
  ghost function Announced(b: Book, now: int, days: int): (keys: set<Key>)
    ensures forall k :: k in keys <==> Announces(Message(b, now, days), k)
  {
    assert forall k :: k in Named(StaleStatuses(b, now, days)) <==> Announces(Message(b, now, days), k) by {
      forall k {
        NamedIsAnnounced(b, now, days, k);
      }
    }
    Named(StaleStatuses(b, now, days))
  }

  /**
   With unique keys every announced secret has exactly one detail block, and the count, in the message and in the
   status, is the number of secrets announced.
  */
  lemma EachIsAnnouncedOnce(b: Book, now: int, days: int)
    requires Unique(b)
    ensures
      var listed := StaleStatuses(b, now, days);
      && (forall x, y :: 0 <= x < y < |listed| ==> KeyOf(listed[x]) != KeyOf(listed[y]))
      && |listed| == |Announced(b, now, days)|
      && Message(b, now, days) == [Header, Divider]
           + (if Announced(b, now, days) == {} then [Success]
              else [Warning(days, |Announced(b, now, days)|)] + Details(listed))
           + [Divider]
  {
    ListedOnce(b, now, days);
    NoElementsOf(Announced(b, now, days));
    assert Announced(b, now, days) == Named(StaleStatuses(b, now, days));
  }

  lemma NoElementsOf(keys: set<Key>)
    ensures |keys| == 0 <==> keys == {}
  {
  }

  /** What a detail block says of a secret is what the run saw: type and creation first seen, modification last seen. */
  lemma DetailTellsWhatWasSeen(events: seq<Event>, digest: Digest, now: int, days: int, s: SecretStatus)
    requires PossibleRun(events)
    requires Detail(s) in Message(BookOf(Run(events, digest)), now, days)
    ensures
      var seen := SeenOf(Trace(events, digest), Key(s.namespace, s.name));
      && seen != [] && s.kind == seen[0].kind && s.isStale && s.days == days
      && Parse(seen[0].created) == Some(s.created)
      && Parse(seen[|seen| - 1].lastModified) == Some(s.lastModified)
  {
    var b := BookOf(Run(events, digest));
    MessageShowsStale(b, now, days, s);
    var e :| e in Flat(b) && IsStale(e, now, days) && s == StatusOf(e, days);
    RunIsReadable(events, digest);
    RunKeepsKeysUnique(events, digest);
    FlatIsLookup(b, Key(e.namespace, e.row.name), e.row.record);
    EntrySummarizesRun(events, digest, Key(e.namespace, e.row.name));
  }

  /** The message is the all-clear exactly when it names no secret. */
  lemma SuccessMeansNothingStale(b: Book, now: int, days: int)
    ensures Success in Message(b, now, days) <==> forall k :: !Announces(Message(b, now, days), k)
  {
    var listed := StaleStatuses(b, now, days);
    if listed != [] {
      var s := listed[0];
      assert Details(listed)[0] == Detail(s);
      assert Detail(s) in Details(listed);
      assert Announces(Message(b, now, days), Key(s.namespace, s.name));
      assert Success !in Details(listed);
    } else {
      assert Message(b, now, days) == [Header, Divider, Success, Divider];
    }
  }

  /**
   A secret that is excluded, or has disappeared, after it was recorded is still announced by the entry it left: later
   passes do not touch that entry, and its date keeps ageing.
   */
  lemma AbandonedSecretIsStillJudged(before: seq<Event>, after: seq<Event>, digest: Digest, now: int, days: int, k: Key)
    requires PossibleRun(before) && PossibleRun(after)
    requires forall e :: e in after ==> !e.ConfigMapDeleted? && !WatchedIn(e, k)
    ensures PossibleRun(before + after)
    ensures Announces(Message(BookOf(Run(before + after, digest)), now, days), k) <==>
            Announces(Message(BookOf(Run(before, digest)), now, days), k)
  {
    AbandonedEntryIsFrozen(before, after, digest, k);
    RunKeepsKeysUnique(before, digest);
    RunKeepsKeysUnique(before + after, digest);
    AnnouncesStaleEntries(BookOf(Run(before, digest)), now, days, k);
    AnnouncesStaleEntries(BookOf(Run(before + after, digest)), now, days, k);
  }
}
