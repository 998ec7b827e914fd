/**
 The daily check as the code runs it: its branches follow values held in local variables, and every step is also the
 reconciler's next step in the protocol, so that what holds of all runs of the protocol holds here.
 */
module DailyChecks {
  import opened Common
  import opened Clock
  import opened Resources
  import opened DailyCheck
  import opened Cluster
  import R = Report
  import H = HashPass

  /** What a call returns to the queue: whether to come back, and after how long. */
  datatype Result = Result(requeue: bool, after: Option<int>)

  const NOTHING := Result(false, None)

  /**
   What a daily check is made of: its stamp; which of the reconciler's own deeds was the attempt to store it; and the
   instants at which it found the annotation due, looked at the hour, and evaluated the ledger. A reading that was not
   reached repeats the one before.
   */
  datatype Trail = Trail(stamp: nat, commit: int, checkedAt: int, hourAt: int, evaluatedAt: int)

  /** The readings were made between these states, in this order. */
  predicate InOrder(s: State, w: Trail, t: State) {
    s.clock <= w.checkedAt <= w.hourAt <= w.evaluatedAt <= t.clock
  }

  /** The 24-hour guard. */
  method PassGuard(c: Cluster, version: nat, copy: Resource) returns (due: bool, now: int)
    requires c.Valid() && version < |c.state.log| && CopyOf(copy, c.state.log[version])
    modifies c
    ensures c.OnwardSelf() && PassDeeds(old(c.own), c.own, c.me, NONE)
    ensures due <==> IsDue(copy.lastChecked, now)
    ensures now == c.state.clock
    ensures ProcOf(c.state, c.me) == if due then Passed(version, copy, now) else Idle
    ensures old(c.Quiet()) ==> c.Quiet() && SameRecords(old(c.state), c.state)
  {
    c.Hold(version, copy);
    now := c.ReadClock(CheckDue(c.me));
    due := IsDue(copy.lastChecked, now);
  }

  lemma CommitEffect(s: State, me: nat, p: Proc, sent: bool, heard: bool)
    requires s.log != [] && ProcOf(s, me) == p && p.Stamping?
    ensures
      var t := Apply(s, CommitStamp(me, sent, heard));
      var accepted := sent && Judge(s.log, p.version, StampedObject(s, p)) == Stored;
      && Grows(s, t) && t.clock == s.clock && MyNotices(t.notices, me) == MyNotices(s.notices, me)
      && (accepted ==>
            && t.stamps == s.stamps + [Stamp(me, |s.log|, p.checkedAt, p.at, s.clock)]
            && MyStamps(t.stamps, me) == MyStamps(s.stamps, me) + {|s.stamps|})
      && (accepted ==> t.log != [] && Latest(t.log) == StampedObject(s, p))
      && (!accepted ==> SameButProcs(s, t))
      && ProcOf(t, me) == if accepted && heard then Stamped(|s.stamps|) else Idle
  {
    var t := Apply(s, CommitStamp(me, sent, heard));
    ApplyGrows(s, CommitStamp(me, sent, heard));
    assert forall i: nat :: i < |s.stamps| ==> t.stamps[i] == s.stamps[i];
  }

  /** At most this stamp is new, whether or not its reply was heard. */
  ghost predicate AtMostStamp(s: State, t: State, me: nat, stamp: int) {
    MyStamps(t.stamps, me) == MyStamps(s.stamps, me) || MyStamps(t.stamps, me) == MyStamps(s.stamps, me) + {stamp}
  }

  /** Whatever becomes of the one attempt to stamp, and nothing else. */
  ghost predicate Attempted(s: State, t: State, me: nat, stored: bool, w: Trail) {
    && Grows(s, t) && MyNotices(t.notices, me) == MyNotices(s.notices, me)
    && AtMostStamp(s, t, me, w.stamp)
    && (stored ==> StampedOnce(s, t, me, w.stamp, w.checkedAt))
    && ProcOf(t, me) == if stored then Stamped(w.stamp) else Idle
  }

  /** What an accepted stamp leaves: the copy sent, with the status that was there. */
  predicate StampedFrom(latest: Resource, copy: Resource, now: Resource) {
    now == MainOf(copy.(lastChecked := now.lastChecked), latest)
  }

  /**
   Stamps the copy and sends it once; refused when anyone, this pass included, has stored a version since the read.
  */
  method UpdateLastCheckedAnnotation(c: Cluster, version: nat, copy: Resource, checkedAt: int)
      returns (stored: bool, ghost w: Trail)
    requires c.Valid() && version < |c.state.log| && CopyOf(copy, c.state.log[version])
    requires ProcOf(c.state, c.me) == Passed(version, copy, checkedAt)
    modifies c
    ensures c.Valid() && old(c.history) <= c.history && Attempted(old(c.state), c.state, c.me, stored, w)
    ensures PassDeeds(old(c.own), c.own, c.me, w.commit) && |old(c.own)| <= w.commit
    ensures w == Trail(w.stamp, w.commit, checkedAt, checkedAt, checkedAt)
    ensures old(c.Quiet()) ==> c.Quiet()
    ensures old(c.Quiet()) && !copy.deleting ==> (stored <==> version == |old(c.state).log| - 1)
    ensures old(c.Quiet()) && !stored ==> SameRecords(old(c.state), c.state)
    ensures old(c.Quiet()) && stored ==> StampedFrom(Latest(old(c.state).log), copy, Latest(c.state.log))
  {
    var at := SetAnnotation(c, version, copy, checkedAt);
    stored, w := SendStamp(c, Stamping(version, copy, checkedAt, at));
  }

  method SetAnnotation(c: Cluster, version: nat, copy: Resource, checkedAt: int) returns (at: int)
    requires c.Valid() && ProcOf(c.state, c.me) == Passed(version, copy, checkedAt)
    modifies c
    ensures c.OnwardSelf() && PassDeeds(old(c.own), c.own, c.me, NONE)
    ensures ProcOf(c.state, c.me) == Stamping(version, copy, checkedAt, at)
    ensures old(c.Quiet()) ==> c.Quiet() && SameRecords(old(c.state), c.state)
  {
    at := c.ReadClock(PrepareStamp(c.me));
  }

  method SendStamp(c: Cluster, p: Proc) returns (stored: bool, ghost w: Trail)
    requires c.Valid() && ProcOf(c.state, c.me) == p && p.Stamping?
    requires p.version < |c.state.log| && CopyOf(p.copy, c.state.log[p.version])
    modifies c
    ensures c.Valid() && old(c.history) <= c.history && Attempted(old(c.state), c.state, c.me, stored, w)
    ensures PassDeeds(old(c.own), c.own, c.me, w.commit) && |old(c.own)| == w.commit
    ensures w == Trail(w.stamp, w.commit, p.checkedAt, p.checkedAt, p.checkedAt)
    ensures old(c.Quiet()) ==> c.Quiet()
    ensures old(c.Quiet()) && !p.copy.deleting ==> (stored <==> p.version == |old(c.state).log| - 1)
    ensures old(c.Quiet()) && !stored ==> SameRecords(old(c.state), c.state)
    ensures old(c.Quiet()) && stored ==> StampedFrom(Latest(old(c.state).log), p.copy, Latest(c.state.log))
  {
    var t := c.Play();
    w := Trail(|c.state.stamps|, |c.own|, p.checkedAt, p.checkedAt, p.checkedAt);
    var accepted := Commit(c, p, !t.broken, !t.lost, w);
    stored := accepted && !t.lost;
  }

  /** The request as the store takes it, if it gets there; the stamp stands even when its reply is lost. */
  method Commit(c: Cluster, p: Proc, sent: bool, heard: bool, ghost w: Trail) returns (accepted: bool)
    requires c.Valid() && ProcOf(c.state, c.me) == p && p.Stamping?
    requires w.stamp == |c.state.stamps| && w.checkedAt == p.checkedAt
    modifies c`state, c`history, c`own
    ensures c.Valid() && old(c.history) <= c.history
    ensures Attempted(old(c.state), c.state, c.me, accepted && heard, w)
    ensures PassDeeds(old(c.own), c.own, c.me, |old(c.own)|)
    ensures accepted <==> sent && Judge(old(c.state).log, p.version, StampedObject(old(c.state), p)) == Stored
    ensures accepted ==> Latest(c.state.log) == StampedObject(old(c.state), p)
    ensures !accepted ==> SameRecords(old(c.state), c.state)
  {
    var content := MainOf(p.copy.(lastChecked := StampText(p.at)), Latest(c.state.log));
    accepted := sent && Judge(c.state.log, p.version, content) == Stored;
    CommitEffect(c.state, c.me, p, sent, heard);
    c.Do(CommitStamp(c.me, sent, heard));
  }

  /** The wake-up planned on this stamp: the protocol's own sleeping position, counted from the present clock. */
  ghost predicate SleepsFor(s: State, me: nat, stamp: nat, delay: int) {
    ProcOf(s, me) == Sleeping(stamp, s.clock + delay)
  }

  /** A day, less at most the time that has passed between these states. */
  predicate WithinADay(s: State, t: State, delay: int) {
    DAY - (t.clock - s.clock) <= delay <= DAY
  }

  /** Plans the next check a day from now and turns it into a delay; the clock is read again in between. */
  method ScheduleNext(c: Cluster, ghost stamp: nat) returns (result: Result)
    requires c.Valid() && ProcOf(c.state, c.me) == Notified(stamp)
    modifies c
    ensures c.OnwardSelf() && PassDeeds(old(c.own), c.own, c.me, NONE)
    ensures old(c.Quiet()) ==> c.Quiet() && SameRecords(old(c.state), c.state)
    ensures result.after.Some? && WithinADay(old(c.state), c.state, result.after.value)
    ensures result.after.Some? && !result.requeue && SleepsFor(c.state, c.me, stamp, result.after.value)
  {
    var now := c.ReadClock(PlanNext(c.me));
    var nextCheck := now + DAY;
    now := c.ReadClock(ComputeDelay(c.me));
    var delay := Sub(nextCheck, now);
    c.Step(Return(c.me));
    result := Result(false, Some(delay));
  }

  datatype Outcome = Outcome(done: bool, err: bool, result: Result, attempt: Option<seq<R.Block>>)

  /** Nobody could be told: the pass ends with an error and holds nothing. */
  method Fail(c: Cluster, attempt: Option<seq<R.Block>>) returns (o: Outcome)
    requires c.Valid()
    modifies c
    ensures c.OnwardSelf() && SameButProcs(old(c.state), c.state) && PassDeeds(old(c.own), c.own, c.me, NONE)
    ensures o == Outcome(true, true, NOTHING, attempt)
  {
    c.Step(GiveUp(c.me));
    o := Outcome(true, true, NOTHING, attempt);
  }

  predicate Readable(stored: Option<H.Blob>) {
    stored.Some? && stored.value.Encoded? && R.AllReadable(R.Flat(stored.value.book))
  }

  /** The message is the report of the stored ledger as evaluated at this instant. */
  predicate MessageOf(stored: Option<H.Blob>, at: int, days: int, blocks: seq<R.Block>) {
    Readable(stored) && blocks == R.Message(stored.value.book, at, days)
  }

  /** A version stored no earlier than `from` lists what the ledger shows to be stale at this instant. */
  ghost predicate Reported(log: Log, from: int, stored: Option<H.Blob>, at: int, days: int) {
    Readable(stored) && Shown(log, from, R.StaleStatuses(stored.value.book, at, days))
  }

  /** A version stored no earlier than `from` has this list, and its length as the count. */
  ghost predicate Shown(log: Log, from: int, statuses: seq<R.SecretStatus>) {
    exists v | from <= v < |log| && 0 <= v :: Lists(log[v], statuses)
  }

  predicate Lists(r: Resource, statuses: seq<R.SecretStatus>) {
    r.secretStatus == statuses && r.staleSecretsCount == |statuses|
  }

  /** Two versions that differ in the report at most. */
  predicate SameButReport(r: Resource, now: Resource) {
    now == r.(secretStatus := now.secretStatus, staleSecretsCount := now.staleSecretsCount)
  }

  /**
   Reads the ledger, evaluates it, notifies, writes the status, and plans the next check. What it returns as its attempt
   is all it has sent, and the only notification it has made.
   */
  method AnnounceAndRecord(c: Cluster, copy: Resource, ghost stamp: nat, ghost hourAt: int, cm: H.ConfigMapStore,
                           slack: R.Slack, outbox: R.Outbox)
      returns (o: Outcome, ghost at: int)
    requires c.Valid() && ProcOf(c.state, c.me) == Open(stamp, hourAt) && hourAt <= c.state.clock
    modifies c, outbox
    ensures c.Valid() && old(c.history) <= c.history && Grows(old(c.state), c.state)
    ensures PassDeeds(old(c.own), c.own, c.me, NONE)
    ensures MyStamps(c.state.stamps, c.me) == MyStamps(old(c.state).stamps, c.me)
    ensures outbox.sent == old(outbox.sent) + R.Sent(o.attempt)
    ensures Notices(old(c.state), c.state, c.me, o.attempt, stamp, hourAt, at)
    ensures old(c.state).clock <= at <= c.state.clock
    ensures o.attempt.Some? ==> MessageOf(cm.stored, at, copy.thresholdDays, o.attempt.value)
    ensures o.done && (o.attempt.None? ==> o.err) && (o.err ==> o.result == NOTHING)
    ensures !o.err ==>
      && o.result.after.Some? && SleepsFor(c.state, c.me, stamp, o.result.after.value)
      && WithinADay(old(c.state), c.state, o.result.after.value)
      && Reported(c.state.log, |old(c.state).log| - 1, cm.stored, at, copy.thresholdDays)
    ensures old(c.Quiet()) ==>
      && (o.attempt.Some? <==> Readable(cm.stored) && slack.configured)
      && (!Gone(Latest(old(c.state).log)) ==> (o.err <==> !Deliverable(cm.stored, slack)))
      && (if o.err then !Gone(Latest(old(c.state).log)) ==> c.state.log == old(c.state).log
          else SameButReport(Latest(old(c.state).log), Latest(c.state.log)))
  {
    var attempt, ok, status;
    attempt, ok, status, at := Announce(c, copy, stamp, hourAt, cm, slack, outbox);
    if !ok {  // the comparison with one particular error never holds
      o := Fail(c, attempt);
      return;
    }
    o := RecordAndPlan(c, stamp, status, attempt);
  }

  /** The message can be made, and gets there. */
  predicate Deliverable(stored: Option<H.Blob>, slack: R.Slack) {
    Readable(stored) && slack.configured && slack.reachable
  }

  /** The notifications made are exactly the attempt, if there was one. */
  ghost predicate Notices(s: State, t: State, me: nat, attempt: Option<seq<R.Block>>, stamp: nat, hourAt: int,
                          at: int) {
    if attempt.Some? then NoticeFor(s, t, me, stamp, hourAt, at)
    else MyNotices(t.notices, me) == MyNotices(s.notices, me)
  }

  /** After the message went out: the status write, then the plan for the next day. */
  method RecordAndPlan(c: Cluster, ghost stamp: nat, status: R.Status, attempt: Option<seq<R.Block>>)
      returns (o: Outcome)
    requires c.Valid() && ProcOf(c.state, c.me) == Notified(stamp)
    requires status.staleSecretsCount == |status.secretStatus|
    modifies c
    ensures c.OnwardSelf() && PassDeeds(old(c.own), c.own, c.me, NONE)
    ensures o.done && o.attempt == attempt && (o.err ==> o.result == NOTHING)
    ensures !o.err ==>
      && o.result.after.Some? && SleepsFor(c.state, c.me, stamp, o.result.after.value)
      && WithinADay(old(c.state), c.state, o.result.after.value)
      && Shown(c.state.log, |old(c.state).log| - 1, status.secretStatus)
    ensures old(c.Quiet()) && !Gone(Latest(old(c.state).log)) ==> !o.err
    ensures old(c.Quiet()) ==> SameButReport(Latest(old(c.state).log), Latest(c.state.log))
  {
    var written, _, _ := WriteReport(c, status);
    if !written {
      o := Fail(c, attempt);
      return;
    }
    var result := ScheduleNext(c, stamp);
    o := Outcome(true, false, result, attempt);
  }

  /** Writes the status the message was made from, over the then latest object, and nothing else. */
  method WriteReport(c: Cluster, status: R.Status) returns (ok: bool, ghost before: State, ghost took: bool)
    requires c.Valid() && status.staleSecretsCount == |status.secretStatus|
    modifies c
    ensures c.Onward() && PassDeeds(old(c.own), c.own, c.me, NONE)
    ensures took ==>
      before.log != [] && c.OneWriteSince(old(c.own), before, WithReport(Latest(before.log), status.secretStatus))
    ensures !took ==> c.own == old(c.own)
    ensures ok ==> took && Shown(c.state.log, |old(c.state).log| - 1, status.secretStatus)
    ensures old(c.Quiet()) ==> (ok <==> !Gone(Latest(old(c.state).log)))
    ensures old(c.Quiet()) ==> c.Quiet() && SameButReport(Latest(old(c.state).log), Latest(c.state.log))
  {
    var attempts;
    ok, attempts, before, took := c.WriteDailyStatus(status.secretStatus, status.staleSecretsCount);
    if ok {
      assert Lists(Latest(c.state.log), status.secretStatus);
      assert Lists(c.state.log[|c.state.log| - 1], status.secretStatus);
    }
  }

  /** Up to the notification: loads the ledger, evaluates it at the instant `at`, sends. */
  method Announce(c: Cluster, copy: Resource, ghost stamp: nat, ghost hourAt: int, cm: H.ConfigMapStore, slack: R.Slack,
                  outbox: R.Outbox)
      returns (attempt: Option<seq<R.Block>>, ok: bool, status: R.Status, ghost at: int)
    requires c.Valid() && ProcOf(c.state, c.me) == Open(stamp, hourAt) && hourAt <= c.state.clock
    modifies c, outbox
    ensures c.Valid() && old(c.history) <= c.history && Grows(old(c.state), c.state)
    ensures PassDeeds(old(c.own), c.own, c.me, NONE)
    ensures MyStamps(c.state.stamps, c.me) == MyStamps(old(c.state).stamps, c.me)
    ensures outbox.sent == old(outbox.sent) + R.Sent(attempt)
    ensures old(c.state).clock <= at <= c.state.clock
    ensures Notices(old(c.state), c.state, c.me, attempt, stamp, hourAt, at)
    ensures attempt.Some? ==>
      ProcOf(c.state, c.me) == Notified(stamp) && MessageOf(cm.stored, at, copy.thresholdDays, attempt.value)
    ensures ok ==>
      && attempt.Some? && status.secretStatus == R.StaleStatuses(cm.stored.value.book, at, copy.thresholdDays)
      && status.staleSecretsCount == |status.secretStatus|
    ensures old(c.Quiet()) ==>
      && (attempt.Some? <==> Readable(cm.stored) && slack.configured)
      && (ok <==> Deliverable(cm.stored, slack))
      && c.Quiet() && c.state.log == old(c.state).log
    ensures fresh(status)
  {
    status := new R.Status(copy.secretStatus, copy.staleSecretsCount);
    var found, now := ReadLedger(c, cm);
    at := now;
    if !found {
      return None, false, status, at;
    }
    attempt, ok := SendReport(c, copy, stamp, hourAt, now, cm, slack, status, outbox);
  }

  /** Fetches the ConfigMap, and then reads the clock. */
  method ReadLedger(c: Cluster, cm: H.ConfigMapStore) returns (found: bool, now: int)
    requires c.Valid()
    modifies c
    ensures c.Onward() && c.own == old(c.own)
    ensures now == c.state.clock && (found ==> cm.stored.Some?)
    ensures old(c.Quiet()) ==> c.Quiet() && SameButClock(old(c.state), c.state) && (found <==> cm.stored.Some?)
  {
    var t := c.Play();
    if t.broken || cm.stored.None? {
      return false, c.state.clock;
    }
    now := c.Now();
    found := true;
  }

  /** The evaluation at the instant just read, and the attempt to send it. */
  method SendReport(c: Cluster, copy: Resource, ghost stamp: nat, ghost hourAt: int, at: int, cm: H.ConfigMapStore,
                    slack: R.Slack, status: R.Status, outbox: R.Outbox)
      returns (attempt: Option<seq<R.Block>>, ok: bool)
    requires c.Valid() && ProcOf(c.state, c.me) == Open(stamp, hourAt) && hourAt <= at == c.state.clock
    requires cm.stored.Some?
    modifies c`state, c`history, c`own, status, outbox
    ensures c.Valid() && old(c.history) <= c.history && Grows(old(c.state), c.state)
    ensures PassDeeds(old(c.own), c.own, c.me, NONE)
    ensures c.state.stamps == old(c.state).stamps && c.state.log == old(c.state).log
    ensures outbox.sent == old(outbox.sent) + R.Sent(attempt)
    ensures Notices(old(c.state), c.state, c.me, attempt, stamp, hourAt, at)
    ensures attempt.Some? ==>
      ProcOf(c.state, c.me) == Notified(stamp) && MessageOf(cm.stored, at, copy.thresholdDays, attempt.value)
    ensures ok ==>
      && attempt.Some? && status.secretStatus == R.StaleStatuses(cm.stored.value.book, at, copy.thresholdDays)
      && status.staleSecretsCount == |status.secretStatus|
    ensures attempt.Some? <==> Readable(cm.stored) && slack.configured
    ensures ok <==> Deliverable(cm.stored, slack)
  {
    var reached;
    reached, attempt, ok := R.DailyReport(status, cm.stored.value, at, copy.thresholdDays, slack, outbox);
    if attempt.Some? {
      c.NotifyOn(stamp, hourAt, at);
    }
  }

  /** A stamp of this reconciler, new since `s`, on an annotation found due at `checkedAt`; it has made no other. */
  ghost predicate StampedOnce(s: State, t: State, me: nat, stamp: int, checkedAt: int) {
    && 0 <= stamp < |t.stamps| && t.stamps[stamp].checkedAt == checkedAt
    && stamp !in MyStamps(s.stamps, me) && MyStamps(t.stamps, me) == MyStamps(s.stamps, me) + {stamp}
  }

  /** Guard and stamp: nothing is done without a stamp of this very call, and there is one attempt at it at most. */
  method TakeStamp(c: Cluster, version: nat, copy: Resource) returns (due: bool, stored: bool, ghost w: Trail)
    requires c.Valid() && version < |c.state.log| && CopyOf(copy, c.state.log[version])
    modifies c
    ensures c.Valid() && old(c.history) <= c.history && Attempted(old(c.state), c.state, c.me, stored, w)
    ensures PassDeeds(old(c.own), c.own, c.me, w.commit)
    ensures InOrder(old(c.state), w, c.state)
    ensures due <==> IsDue(copy.lastChecked, w.checkedAt)
    ensures !due ==> !stored && MyStamps(c.state.stamps, c.me) == MyStamps(old(c.state).stamps, c.me)
    ensures old(c.Quiet()) ==> c.Quiet()
    ensures old(c.Quiet()) && !copy.deleting ==> (stored <==> due && version == |old(c.state).log| - 1)
    ensures old(c.Quiet()) && !stored ==> SameRecords(old(c.state), c.state)
    ensures old(c.Quiet()) && stored ==> StampedFrom(Latest(old(c.state).log), copy, Latest(c.state.log))
  {
    var now;
    due, now := PassGuard(c, version, copy);
    w := Trail(0, NONE, now, now, now);
    stored := false;
    if due {
      stored, w := UpdateLastCheckedAnnotation(c, version, copy, now);
    }
  }

  /** The hour is right, the ledger readable, and the credentials present. */
  predicate Tellable(hourAt: int, stored: Option<H.Blob>, slack: R.Slack) {
    InWindow(hourAt) && Readable(stored) && slack.configured
  }

  /**
   What a check has told whom: a notification is made exactly when an attempt is reported; it rests on the check's own
   stamp, is made inside the hours that notify, and carries the report of the stored ledger as evaluated between that
   reading of the hour and the attempt; without an error a check that got past the window has also stored that report,
   and sleeps on that stamp as the protocol says.
  */
  ghost predicate Told(s: State, t: State, me: nat, stored: Option<H.Blob>, days: int, o: Outcome, stamped: bool,
                       w: Trail) {
    && Notices(s, t, me, o.attempt, w.stamp, w.hourAt, w.evaluatedAt)
    && (o.attempt.Some? ==>
          && stamped && o.done && InWindow(w.hourAt)
          && MessageOf(stored, w.evaluatedAt, days, o.attempt.value))
    && (o.done && !o.err ==>
          && o.attempt.Some? && Reported(t.log, |s.log| - 1, stored, w.evaluatedAt, days)
          && o.result.after.Some? && SleepsFor(t, me, w.stamp, o.result.after.value)
          && WithinADay(s, t, o.result.after.value))
  }

  /**
   How a check ends: it is done exactly when it has stamped and found the hour right; if it is not, it ends in an error
   exactly when the annotation was due and no stamp was reported.
   */
  predicate Ends(lastChecked: Option<TimeText>, o: Outcome, stamped: bool, w: Trail) {
    && (o.done <==> stamped && InWindow(w.hourAt))
    && (!o.done ==> (o.err <==> IsDue(lastChecked, w.checkedAt) && !stamped))
    && (o.err ==> o.result == NOTHING)
  }

  /** The one way left for an undisturbed check to fail. */
  predicate FailsQuietly(due: bool, stamped: bool, w: Trail, stored: Option<H.Blob>, slack: R.Slack) {
    due && (!stamped || (InWindow(w.hourAt) && !Deliverable(stored, slack)))
  }

  /** The stamps of a check: exactly one when it reports one; otherwise none, or one whose reply was lost. */
  ghost predicate Stamps(s: State, t: State, me: nat, lastChecked: Option<TimeText>, stamped: bool, w: Trail) {
    && AtMostStamp(s, t, me, w.stamp)
    && (stamped ==> StampedOnce(s, t, me, w.stamp, w.checkedAt) && IsDue(lastChecked, w.checkedAt))
  }

  /**
   An undisturbed check with this copy of the version in hand: it stamps exactly when it finds the annotation due and no
   version has been stored since its copy was read, and it then notifies exactly when the hour it reads is right, the
   ledger readable and the credentials present. It fails exactly when it is due and either refused the stamp or, inside
   the hours, unable to deliver. Without a stamp it leaves the store as it is; with one it changes the annotation, and
   the report if it ends well.
   */
  predicate QuietCheck(s: State, t: State, version: nat, copy: Resource, stored: Option<H.Blob>, slack: R.Slack,
                       o: Outcome, stamped: bool, w: Trail)
    requires s.log != [] && t.log != []
  {
    && (stamped <==> IsDue(copy.lastChecked, w.checkedAt) && version == |s.log| - 1)
    && (o.attempt.Some? <==> stamped && Tellable(w.hourAt, stored, slack))
    && (o.done <==> stamped && InWindow(w.hourAt))
    && (o.err <==> FailsQuietly(IsDue(copy.lastChecked, w.checkedAt), stamped, w, stored, slack))
    && (if !stamped then SameRecords(s, t)
        else
          var marked := MainOf(copy.(lastChecked := Latest(t.log).lastChecked), Latest(s.log));
          if o.done && !o.err then SameButReport(marked, Latest(t.log)) else Latest(t.log) == marked)
  }

  /**
   One daily check. A notification is attempted only on a stamp this very call has stored, its message is the report
   of the stored ledger at an instant of this call, and after a completed check the reconciler sleeps on that stamp.
   What it returns as its attempt is all that it has sent, and it tries at most once to stamp.
  */
  method PerformDailyChecks(c: Cluster, version: nat, copy: Resource, cm: H.ConfigMapStore, slack: R.Slack,
                            outbox: R.Outbox)
      returns (o: Outcome, stamped: bool, ghost w: Trail)
    requires c.Valid() && version < |c.state.log| && CopyOf(copy, c.state.log[version])
    modifies c, outbox
    ensures c.Valid() && old(c.history) <= c.history && Grows(old(c.state), c.state)
    ensures PassDeeds(old(c.own), c.own, c.me, w.commit)
    ensures InOrder(old(c.state), w, c.state)
    ensures Stamps(old(c.state), c.state, c.me, copy.lastChecked, stamped, w)
    ensures Told(old(c.state), c.state, c.me, cm.stored, copy.thresholdDays, o, stamped, w)
    ensures Ends(copy.lastChecked, o, stamped, w)
    ensures outbox.sent == old(outbox.sent) + R.Sent(o.attempt)
    ensures old(c.Quiet()) && !copy.deleting ==>
      QuietCheck(old(c.state), c.state, version, copy, cm.stored, slack, o, stamped, w)
  {
    var due;
    due, stamped, w := TakeStamp(c, version, copy);
    if !due {
      o := Outcome(false, false, NOTHING, None);
      return;
    }
    if !stamped {
      o := Outcome(false, true, NOTHING, None);
      return;
    }
    o, w := NotifyInWindow(c, copy, w, cm, slack, outbox);
  }

  /** The stamped check goes on: inside the hours that notify it announces and records, outside it does nothing. */
  method NotifyInWindow(c: Cluster, copy: Resource, ghost taken: Trail, cm: H.ConfigMapStore, slack: R.Slack,
                        outbox: R.Outbox)
      returns (o: Outcome, ghost w: Trail)
    requires c.Valid() && ProcOf(c.state, c.me) == Stamped(taken.stamp) && taken.checkedAt <= c.state.clock
    modifies c, outbox
    ensures c.Valid() && old(c.history) <= c.history && Grows(old(c.state), c.state)
    ensures PassDeeds(old(c.own), c.own, c.me, NONE)
    ensures MyStamps(c.state.stamps, c.me) == MyStamps(old(c.state).stamps, c.me)
    ensures w == taken.(hourAt := w.hourAt, evaluatedAt := w.evaluatedAt)
    ensures old(c.state).clock <= w.hourAt <= w.evaluatedAt <= c.state.clock
    ensures Told(old(c.state), c.state, c.me, cm.stored, copy.thresholdDays, o, true, w)
    ensures outbox.sent == old(outbox.sent) + R.Sent(o.attempt)
    ensures (o.done <==> InWindow(w.hourAt)) && (!o.done ==> !o.err) && (o.err ==> o.result == NOTHING)
    ensures old(c.Quiet()) && !Gone(Latest(old(c.state).log)) ==>
      && (o.attempt.Some? <==> Tellable(w.hourAt, cm.stored, slack))
      && (o.err <==> o.done && !Deliverable(cm.stored, slack))
      && (if o.done && !o.err then SameButReport(Latest(old(c.state).log), Latest(c.state.log))
          else Latest(c.state.log) == Latest(old(c.state).log))
  {
    var currentTime := c.ReadClock(CheckWindow(c.me));
    w := taken.(hourAt := currentTime, evaluatedAt := currentTime);
    if !InWindow(currentTime) {
      o := Outcome(false, false, NOTHING, None);
      return;
    }
    ghost var at;
    o, at := AnnounceAndRecord(c, copy, w.stamp, currentTime, cm, slack, outbox);
    w := w.(evaluatedAt := at);
  }
}
