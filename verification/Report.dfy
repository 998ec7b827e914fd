/** The daily report: which entries are stale, the status that lists them, and the message that announces them. */
module Report {
  import opened Common
  import opened Clock
  import opened Ledger
  import H = HashPass

  // ---------- the staleness test ----------

  /** `time.Duration(days) * 24 * time.Hour`: two 64-bit products, each wrapping. */
  function Threshold(days: int): int {
    Wrap(Wrap(days * 24) * HOUR)
  }

  /** The test as computed on 64-bit durations. */
  predicate StaleTest(now: int, lastModified: int, days: int) {
    Abs(Sub(now, lastModified)) > Abs(Threshold(days))
  }

  /** The test as meant. */
  predicate TrulyStale(now: int, lastModified: int, days: int) {
    Magnitude(now - lastModified) > days * DAY
  }

  const MAX_EXACT_DAYS := 106751

  lemma ExactUpToLimit(now: int, lastModified: int, days: int)
    requires 1 <= days <= MAX_EXACT_DAYS
    ensures StaleTest(now, lastModified, days) <==> TrulyStale(now, lastModified, days)
  {
    assert Threshold(days) == days * 24 * HOUR == days * DAY;
  }

  /** For the thresholds the admission webhook lets through, the test is the meant one for all instants iff it fits. */
  lemma ExactThresholds(days: int)
    requires 1 <= days <= MAX64
    ensures (forall now, lastModified :: StaleTest(now, lastModified, days) <==> TrulyStale(now, lastModified, days))
       <==> days <= MAX_EXACT_DAYS
  {
    if days <= MAX_EXACT_DAYS {
      forall now, lastModified
        ensures StaleTest(now, lastModified, days) <==> TrulyStale(now, lastModified, days)
      {
        ExactUpToLimit(now, lastModified, days);
      }
    } else if Abs(Threshold(days)) < MAX64 {
      assert StaleTest(MAX64, 0, days) && !TrulyStale(MAX64, 0, days);
    } else {
      assert TrulyStale(days * DAY + 1, 0, days) && !StaleTest(days * DAY + 1, 0, days);
    }
  }

  // ---------- the status ----------

  datatype SecretStatus = SecretStatus(namespace: string, name: string, kind: string, created: int, lastModified: int,
                                       isStale: bool, days: int)

  datatype Entry = Entry(namespace: string, row: Row)

  function EntriesOf(ns: string, rows: seq<Row>): (es: seq<Entry>)
    ensures |es| == |rows|
    ensures forall j :: 0 <= j < |es| ==> es[j] == Entry(ns, rows[j])
  {
    seq(|rows|, j requires 0 <= j < |rows| => Entry(ns, rows[j]))
  }

  /** The rows of the ledger, bucket after bucket. */
  function Flat(b: Book): seq<Entry> {
    if b == [] then [] else Flat(b[..|b| - 1]) + EntriesOf(b[|b| - 1].name, b[|b| - 1].rows)
  }

  /** How many rows come before a bucket. */
  function Offset(b: Book, i: nat): nat
    requires i <= |b|
  {
    if i == 0 then 0 else Offset(b, i - 1) + |b[i - 1].rows|
  }

  lemma {:induction false} OffsetsAgree(b: Book, n: nat, i: nat)
    requires i <= n <= |b|
    ensures Offset(b[..n], i) == Offset(b, i)
  {
    if i > 0 {
      OffsetsAgree(b, n, i - 1);
    }
  }

  predicate StandsAt(b: Book, i: nat, j: nat)
    requires i < |b| && j < |b[i].rows|
  {
    Offset(b, i) + j < |Flat(b)| && Flat(b)[Offset(b, i) + j] == Entry(b[i].name, b[i].rows[j])
  }

  /** Every row stands exactly once in the flattened ledger, at its place in the order of buckets and rows. */
  lemma {:induction false} FlatIsInOrder(b: Book)
    ensures |Flat(b)| == Offset(b, |b|)
    ensures forall i, j :: 0 <= i < |b| && 0 <= j < |b[i].rows| ==> StandsAt(b, i, j)
  {
    if b == [] {
    } else {
      var n := |b| - 1;
      FlatIsInOrder(b[..n]);
      OffsetsAgree(b, n, n);
      forall i, j | 0 <= i < |b| && 0 <= j < |b[i].rows|
        ensures StandsAt(b, i, j)
      {
        if i < n {
          OffsetsAgree(b, n, i);
          assert b[..n][i] == b[i];
          assert StandsAt(b[..n], i, j);
        }
      }
    }
  }

  predicate Readable(e: Entry) {
    Parse(e.row.record.created).Some? && Parse(e.row.record.lastModified).Some?
  }

  predicate AllReadable(es: seq<Entry>) {
    forall e :: e in es ==> Readable(e)
  }

  predicate IsStale(e: Entry, now: int, days: int) {
    Readable(e) && StaleTest(now, Parse(e.row.record.lastModified).value, days)
  }

  function StatusOf(e: Entry, days: int): SecretStatus {
    SecretStatus(e.namespace, e.row.name, e.row.record.kind,
                 Parse(e.row.record.created).GetOr(0), Parse(e.row.record.lastModified).GetOr(0), true, days)
  }

  function StatusesOf(es: seq<Entry>, days: int): (ss: seq<SecretStatus>)
    ensures |ss| == |es|
    ensures forall i :: 0 <= i < |ss| ==> ss[i] == StatusOf(es[i], days)
  {
    seq(|es|, i requires 0 <= i < |es| => StatusOf(es[i], days))
  }

  function StaleEntries(es: seq<Entry>, now: int, days: int): seq<Entry> {
    Filter(es, e => IsStale(e, now, days))
  }

  /** The in-order filter of the flattened ledger by staleness. */
  function StaleStatuses(b: Book, now: int, days: int): seq<SecretStatus> {
    StatusesOf(StaleEntries(Flat(b), now, days), days)
  }

  class Status {
    var secretStatus: seq<SecretStatus>
    var staleSecretsCount: int

    constructor (secretStatus: seq<SecretStatus>, staleSecretsCount: int)
      ensures this.secretStatus == secretStatus && this.staleSecretsCount == staleSecretsCount
    {
      this.secretStatus, this.staleSecretsCount := secretStatus, staleSecretsCount;
    }

    /**
     Appends the stale entries to what is there. Missing or empty data does not decode, and the first unreadable time
     ends the walk; what was appended before it stays in memory only.
     */
    method UpdateSecretStatuses(blob: H.Blob, now: int, days: int) returns (ok: bool)
      modifies this
      ensures ok <==> blob.Encoded? && AllReadable(Flat(blob.book))
      ensures ok ==> secretStatus == old(secretStatus) + StaleStatuses(blob.book, now, days)
      ensures ok ==> staleSecretsCount == old(staleSecretsCount) + |StaleStatuses(blob.book, now, days)|
    {
      if !blob.Encoded? {
        return false;
      }
      var book := blob.book;
      ghost var done: seq<Entry> := [];
      for i := 0 to |book|
        invariant done == Flat(book[..i]) && AllReadable(done)
        invariant Extended(old(secretStatus), old(staleSecretsCount), done, now, days)
      {
        var rows := book[i].rows;
        for j := 0 to |rows|
          invariant done == Flat(book[..i]) + EntriesOf(book[i].name, rows)[..j] && AllReadable(done)
          invariant Extended(old(secretStatus), old(staleSecretsCount), done, now, days)
        {
          var entry := Entry(book[i].name, rows[j]);
          FlatContains(book, i, j);
          var created := Parse(rows[j].record.created);
          if created.None? {
            return false;
          }
          var lastModified := Parse(rows[j].record.lastModified);
          if lastModified.None? {
            return false;
          }
          StaleEntriesAppend(done, entry, now, days);
          done := done + [entry];
          if StaleTest(now, lastModified.value, days) {
            var s := SecretStatus(book[i].name, rows[j].name, rows[j].record.kind, created.value,
                                  lastModified.value, true, days);
            secretStatus := secretStatus + [s];
            staleSecretsCount := staleSecretsCount + 1;
          }
        }
        assert book[..i + 1][..i] == book[..i];
      }
      assert book[..|book|] == book;
      return true;
    }

    /** The list and the count have grown by exactly the stale ones among these entries. */
    ghost predicate Extended(list: seq<SecretStatus>, count: int, es: seq<Entry>, now: int, days: int)
      reads this
    {
      && secretStatus == list + StatusesOf(StaleEntries(es, now, days), days)
      && staleSecretsCount == count + |StaleEntries(es, now, days)|
    }
  }

  lemma StaleEntriesAppend(es: seq<Entry>, e: Entry, now: int, days: int)
    ensures StaleEntries(es + [e], now, days) == StaleEntries(es, now, days) + if IsStale(e, now, days) then [e] else []
    ensures StatusesOf(StaleEntries(es + [e], now, days), days)
         == StatusesOf(StaleEntries(es, now, days), days) + if IsStale(e, now, days) then [StatusOf(e, days)] else []
  {
    FilterAppend(es, e, x => IsStale(x, now, days));
  }

  lemma {:induction false} FlatContains(b: Book, i: nat, j: nat)
    requires i < |b| && j < |b[i].rows|
    ensures Entry(b[i].name, b[i].rows[j]) in Flat(b)
  {
    var n := |b| - 1;
    if i < n {
      FlatContains(b[..n], i, j);
    } else {
      assert EntriesOf(b[n].name, b[n].rows)[j] == Entry(b[i].name, b[i].rows[j]);
    }
  }

  /** The status list is the stale part of the ledger: every stale row once, in the order of buckets and rows. */
  lemma StatusesInOrder(b: Book, now: int, days: int) returns (places: seq<nat>)
    ensures |StaleStatuses(b, now, days)| == |places|
    ensures forall x :: 0 <= x < |places| ==>
      places[x] < |Flat(b)| && StaleStatuses(b, now, days)[x] == StatusOf(Flat(b)[places[x]], days)
    ensures forall x, y :: 0 <= x < y < |places| ==> places[x] < places[y]
    ensures forall i: nat :: i in places <==> i < |Flat(b)| && IsStale(Flat(b)[i], now, days)
  {
    places := FilterPlaces(Flat(b), e => IsStale(e, now, days));
  }

  // ---------- the message ----------

  datatype Block =
    | Header
    | Divider
    | Success
    | Warning(days: int, count: int)
    | Detail(status: SecretStatus)

  function Details(statuses: seq<SecretStatus>): (ds: seq<Block>)
    ensures |ds| == |statuses|
    ensures forall i :: 0 <= i < |ds| ==> ds[i] == Detail(statuses[i])
  {
    seq(|statuses|, i requires 0 <= i < |statuses| => Detail(statuses[i]))
  }

  method PrepareSlackMessage(warning: bool, days: int, count: int, statuses: seq<SecretStatus>)
      returns (blocks: seq<Block>)
    ensures blocks == [Header, Divider]
                      + (if warning then [Warning(days, count)] + Details(statuses) else [Success]) + [Divider]
  {
    blocks := [Header, Divider];
    if !warning {
      blocks := blocks + [Success];
    } else {
      blocks := blocks + [Warning(days, count)];
      for i := 0 to |statuses|
        invariant blocks == [Header, Divider, Warning(days, count)] + Details(statuses)[..i]
      {
        blocks := blocks + [Detail(statuses[i])];
      }
    }
    blocks := blocks + [Divider];
  }

  /** The state of the messaging side: credentials present, and whether the send goes through. */
  datatype Slack = Slack(configured: bool, reachable: bool)

  /** All messages whose sending has been attempted. */
  class Outbox {
    var sent: seq<seq<Block>>

    constructor ()
      ensures sent == []
    {
      sent := [];
    }

    method Send(blocks: seq<Block>, slack: Slack) returns (ok: bool)
      modifies this
      ensures sent == old(sent) + [blocks]
      ensures ok == slack.reachable
    {
      sent := sent + [blocks];
      ok := slack.reachable;
    }
  }

  function Sent(attempt: Option<seq<Block>>): seq<seq<Block>> {
    if attempt.Some? then [attempt.value] else []
  }

  /** An attempt to send happens only with credentials, and once; its text depends on whether anything is listed. */
  method NotifySlack(status: Status, days: int, slack: Slack, outbox: Outbox)
      returns (attempt: Option<seq<Block>>, ok: bool)
    modifies outbox
    ensures outbox.sent == old(outbox.sent) + Sent(attempt)
    ensures attempt.Some? <==> slack.configured
    ensures ok <==> slack.configured && slack.reachable
    ensures attempt.Some? ==>
      attempt.value == [Header, Divider]
                       + (if status.secretStatus == [] then [Success]
                          else [Warning(days, status.staleSecretsCount)] + Details(status.secretStatus))
                       + [Divider]
  {
    if !slack.configured {
      return None, false;
    }
    var blocks;
    if |status.secretStatus| <= 0 {
      blocks := PrepareSlackMessage(false, days, 0, []);
    } else {
      blocks := PrepareSlackMessage(true, days, status.staleSecretsCount, status.secretStatus);
    }
    ok := outbox.Send(blocks, slack);
    return Some(blocks), ok;
  }

  function Message(b: Book, now: int, days: int): seq<Block> {
    var listed := StaleStatuses(b, now, days);
    [Header, Divider] + (if listed == [] then [Success] else [Warning(days, |listed|)] + Details(listed)) + [Divider]
  }

  /** A fresh evaluation: what the status held before does not matter. */
  method Evaluate(status: Status, blob: H.Blob, now: int, days: int) returns (ok: bool)
    modifies status
    ensures ok <==> blob.Encoded? && AllReadable(Flat(blob.book))
    ensures ok ==> status.secretStatus == StaleStatuses(blob.book, now, days)
    ensures ok ==> status.staleSecretsCount == |StaleStatuses(blob.book, now, days)|
  {
    status.secretStatus := [];
    status.staleSecretsCount := 0;
    ok := status.UpdateSecretStatuses(blob, now, days);
    assert ok ==> [] + StaleStatuses(blob.book, now, days) == StaleStatuses(blob.book, now, days);
  }

  /**
   The report of one day, whatever the status held before: the list is the stale part of the ledger in order, the count
   is its length, and the message shows the same list. `reached` says whether the notification step was reached.
   */
  method DailyReport(status: Status, blob: H.Blob, now: int, days: int, slack: Slack, outbox: Outbox)
      returns (reached: bool, attempt: Option<seq<Block>>, ok: bool)
    modifies status, outbox
    ensures outbox.sent == old(outbox.sent) + Sent(attempt)
    ensures reached <==> blob.Encoded? && AllReadable(Flat(blob.book))
    ensures attempt.Some? <==> reached && slack.configured
    ensures attempt.Some? ==> attempt.value == Message(blob.book, now, days)
    ensures ok <==> attempt.Some? && slack.reachable
    ensures ok ==> status.secretStatus == StaleStatuses(blob.book, now, days)
    ensures ok ==> status.staleSecretsCount == |status.secretStatus|
  {
    reached := Evaluate(status, blob, now, days);
    if !reached {
      return reached, None, false;
    }
    attempt, ok := NotifySlack(status, days, slack, outbox);
  }
}
