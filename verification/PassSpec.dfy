/**
 What one reconcile pass is for: its report, its deeds, what it does to the ledger, and how an undisturbed pass goes.
 All of it is said of values, before and after.
*/
module PassSpec {
  import opened Common
  import opened Clock
  import opened Resources
  import opened DailyCheck
  import opened Cluster
  import opened DailyChecks
  import opened HashPass
  import opened PassLaws
  import Ledger
  import L = LedgerRuns
  import R = Report
  import W = WatchList

  /** What the pass meets besides the custom resource. */
  datatype World = World(cluster: W.Listing, failing: set<nat>, answers: Answers, faults: Faults, slack: R.Slack)

  const TEN_MINUTES := 600 * SECOND

  /** How far a pass got. */
  datatype Stage = Unread | Refused | Deleting | NotReady | NotHashed | Hashed

  datatype PassReport = PassReport(seen: GetResult, stage: Stage, result: Result, err: bool, stamped: bool,
                                   attempt: Option<seq<R.Block>>)

  predicate HashingStage(stage: Stage) {
    stage.NotHashed? || stage.Hashed?
  }

  /** Whether every listing works that this selection takes. */
  predicate Listable(selection: W.Selection, world: World) {
    W.NoneFails(W.Calls(selection, world.cluster), world.failing)
  }

  /** Getting ready, undisturbed: a missing ConfigMap is created, and that is all; otherwise the listings decide. */
  predicate Readied(selection: W.Selection, before: Option<Blob>, after: Option<Blob>, world: World, ready: bool,
                    err: bool) {
    if before.None? then !ready && !err && after == Some(Empty)
    else (ready <==> Listable(selection, world)) && (!ready ==> err)
  }

  /** How far an undisturbed pass gets, by what it finds. */
  predicate GetsTo(first: Resource, before: Option<Blob>, after: Option<Blob>, world: World, p: PassReport) {
    if Gone(first) then p.stage.Unread? && !p.err
    else if first.deleting then p.stage.Deleting? && !p.err
    else if before.None? then
      p.stage.NotReady? && !p.err && p.result == Result(true, None) && after == Some(Empty)
    else if !Listable(first.selection, world) then p.stage.NotReady? && p.err
    else HashingStage(p.stage)
  }

  /**
   A pass that stops before the hashing has failed, or has created the missing ConfigMap and asks to come back at
   once.
  */
  predicate FailedOrCreated(before: Option<Blob>, after: Option<Blob>, err: bool, result: Result) {
    if err then result == NOTHING else before.None? && after == Some(Empty) && result == Result(true, None)
  }

  /** What each stage returns to the queue, and what the ledger looks like when the hashing was not reached. */
  predicate Returns(before: Option<Blob>, after: Option<Blob>, p: PassReport) {
    && (p.seen.Absent? || p.seen.GetFailed? <==> p.stage.Unread?)
    && (p.stage.Unread? ==> p.err == p.seen.GetFailed?)
    && (p.stage.Refused? ==> p.err)
    && (p.stage.Unread? || p.stage.Refused? || p.stage.Deleting? ==> p.result == NOTHING && after == before)
    && (p.stage.NotReady? ==> FailedOrCreated(before, after, p.err, p.result))
    && (p.stage.NotHashed? ==> !p.err && p.result == NOTHING)
  }

  /** No reading was made, and nothing attempted. */
  function NoReading(s: State): Trail {
    Trail(0, NONE, s.clock, s.clock, s.clock)
  }

  predicate IsVersion(log: Log, version: nat, copy: Resource) {
    version < |log| && log[version] == copy
  }

  /** The copy in use is a stored version but for its finalizers, and the copy read first if that had the finalizer. */
  predicate UsedCopy(log: Log, seen: GetResult, version: nat, used: Resource) {
    && version < |log| && CopyOf(used, log[version])
    && (seen.Found? && FINALIZER in seen.copy.finalizers ==> version == seen.version && used == seen.copy)
  }

  // ---------- stamps and notifications ----------

  /**
   What a pass has done towards notifying. Its stamps and notifications are exactly what it reports, a stamp whose reply
   was lost aside. An attempt rests on a stamp of this very pass, is made inside the hours that notify, and carries the
   report of the stored ledger as evaluated between its reading of the hour and the attempt. A pass that ends well has
   also stored that report and sleeps on that stamp or, when it made no attempt, comes back in ten minutes. A pass that
   does not get as far as the daily check neither stamps nor sends.
   */
  ghost predicate Accounted(s: State, t: State, me: nat, stored: Option<Blob>, p: PassReport, used: Resource,
                            w: Trail) {
    && Stamps(s, t, me, used.lastChecked, p.stamped, w)
    && Notices(s, t, me, p.attempt, w.stamp, w.hourAt, w.evaluatedAt)
    && (p.attempt.Some? ==>
          p.stamped && InWindow(w.hourAt) && MessageOf(stored, w.evaluatedAt, used.thresholdDays, p.attempt.value))
    && (p.stage.Hashed? && !p.err ==>
          if p.attempt.None? then p.result == Result(false, Some(10 * 60 * SECOND))
          else
            && p.result.after.Some? && SleepsFor(t, me, w.stamp, p.result.after.value)
            && WithinADay(s, t, p.result.after.value)
            && Reported(t.log, |s.log| - 1, stored, w.evaluatedAt, used.thresholdDays))
    && (!p.stage.Hashed? ==> !p.stamped && p.attempt.None? && SameMine(s, t, me))
  }

  /** A pass is accounted for from any earlier moment since when its reconciler has neither stamped nor sent. */
  lemma AccountedSince(r: State, s: State, t: State, me: nat, stored: Option<Blob>, p: PassReport, used: Resource,
                       w: Trail)
    requires Grows(r, s) && SameMine(r, s, me) && Accounted(s, t, me, stored, p, used, w)
    ensures Accounted(r, t, me, stored, p, used, w)
  {
  }

  // ---------- deletion ----------

  /** The deed sets this condition on the then latest object, and nothing else. */
  predicate Sets(d: Deed, me: nat, c: Condition) {
    d.before.log != [] && PutsOver(d, me, WithCondition(Latest(d.before.log), c))
  }

  /** The deed takes this operator's finalizer off the then latest object, and changes nothing else. */
  predicate TakesOff(d: Deed, me: nat) {
    d.before.log != [] && PutsOver(d, me, WithoutFinalizer(Latest(d.before.log)))
  }

  /** All the reconciler has done since: nothing, or set that condition. */
  predicate OnlySet(before: seq<Deed>, own: seq<Deed>, me: nat, c: Condition) {
    own == before || (|own| == |before| + 1 && before <= own && Sets(own[|before|], me, c))
  }

  /** All the reconciler has done since: nothing, or taken its finalizer off. */
  predicate OnlyTakenOff(before: seq<Deed>, own: seq<Deed>, me: nat) {
    own == before || (|own| == |before| + 1 && before <= own && TakesOff(own[|before|], me))
  }

  /** All the reconciler has done since: set that condition, then taken its finalizer off. */
  predicate SetThenTakenOff(before: seq<Deed>, own: seq<Deed>, me: nat, c: Condition) {
    |own| == |before| + 2 && before <= own && Sets(own[|before|], me, c) && TakesOff(own[|before| + 1], me)
  }

  /** A finalizer missing from a version marked for deletion stays missing. */
  lemma AlreadyReleased(log: Log, version: nat)
    requires LegalLog(log) && version < |log| && log[version].deleting && FINALIZER !in log[version].finalizers
    ensures Released(log, version)
  {
    if SameLife(log, version, |log| - 1) {
      DeletionIsFinal(log, version, |log| - 1);
    }
  }

  /** The object read at `version`, if it still exists, is rid of this operator's finalizer. */
  ghost predicate Released(log: Log, version: nat) {
    log != [] && (SameLife(log, version, |log| - 1) ==> FINALIZER !in Latest(log).finalizers)
  }

  /**
   What a pass that read a deletion mark has done: at most set its first condition and taken its own finalizer off, each
   on the then latest object, so that every other finalizer and everything else stays; and what it has achieved when it
   ends without error.
   */
  ghost predicate DeletionPass(before: seq<Deed>, own: seq<Deed>, me: nat, log: Log, p: PassReport, c: Condition) {
    && p.result == NOTHING
    && (OnlySet(before, own, me, c) || SetThenTakenOff(before, own, me, c))
    && (!p.err ==> p.seen.Found? && Released(log, p.seen.version))
  }

  // ---------- the whole pass ----------

  /**
   What a pass does to the ledger: nothing, or creates it empty, or exactly one hashing pass over the watch list of the
   copy it works on, on whose success it depends how the pass goes on.
   */
  ghost predicate LedgerStep(before: Option<Blob>, after: Option<Blob>, stage: Stage, used: Resource, world: World,
                             order: seq<string>, digest: Digest)
  {
    if !HashingStage(stage) then after == before || (before.None? && after == Some(Empty))
    else
      var watch := W.ExpectedWatch(used.selection, world.cluster);
      && IsEnumeration(order, watch.Keys) && (forall ns :: ns in order ==> ns in watch)
      && after == After(before, Flatten(order, watch), world.answers, world.faults, digest)
      && (stage.Hashed? <==> Succeeds(before, Flatten(order, watch), world.answers, world.faults))
  }

  /** What a pass finds, and what it leaves: the store, its reconciler's deeds, the ledger, and the messages sent. */
  datatype Scene = Scene(state: State, own: seq<Deed>, ledger: Option<Blob>, sent: seq<seq<R.Block>>)

  ghost function SceneOf(c: Cluster, cm: ConfigMapStore, outbox: R.Outbox): Scene
    reads c, cm, outbox
  {
    Scene(c.state, c.own, cm.stored, outbox.sent)
  }

  /**
   How a pass went: the copy its second half works on, and the version that copy carries; the order in which it walked
   the namespaces; the readings of its daily check; and the conditions it sets.
   */
  datatype Account = Account(version: nat, used: Resource, order: seq<string>, w: Trail, ds: Conditions)

  /** Everything a pass does, whatever the others do meanwhile. */
  ghost predicate PassDone(a: Scene, b: Scene, me: nat, world: World, digest: Digest, p: PassReport, g: Account) {
    && Grows(a.state, b.state) && InOrder(a.state, g.w, b.state)
    && (p.seen.Found? ==> IsVersion(b.state.log, p.seen.version, p.seen.copy))
    && UsedCopy(b.state.log, p.seen, g.version, g.used)
    && Returns(a.ledger, b.ledger, p)
    && LedgerStep(a.ledger, b.ledger, p.stage, g.used, world, g.order, digest)
    && Accounted(a.state, b.state, me, b.ledger, p, g.used, g.w)
    && b.sent == a.sent + R.Sent(p.attempt)
    && AsNamed(g.ds)
    && (if p.seen.Found? && p.seen.copy.deleting then
          (p.stage.Refused? || p.stage.Deleting?) && DeletionPass(a.own, b.own, me, b.state.log, p, g.ds.started)
        else
          PassDeeds(a.own, b.own, me, g.w.commit) && (!p.seen.Found? ==> b.own == a.own))
  }

  /** A pass that stops before the hashing has neither stamped nor sent, nor recorded anything. */
  lemma StopsEarly(s: State, t: State, me: nat, before: Option<Blob>, after: Option<Blob>, world: World, p: PassReport,
                   g: Account, digest: Digest)
    requires !HashingStage(p.stage) && !p.stamped && p.attempt.None? && SameMine(s, t, me)
    requires after == before || (before.None? && after == Some(Empty))
    ensures Accounted(s, t, me, after, p, g.used, g.w)
    ensures LedgerStep(before, after, p.stage, g.used, world, g.order, digest)
  {
  }

  /** The report of a pass that did not get its first condition set. */
  function StoppedReport(seen: GetResult): PassReport {
    PassReport(seen, if seen.Found? then Refused else Unread, NOTHING, !seen.Absent?, false, None)
  }

  /** The account of a pass that has not got beyond its first condition. */
  function EarlyAccount(version: nat, used: Resource, now: State, d: Condition): Account {
    Account(version, used, [], NoReading(now), Conditions(d, FinalizerAdded(0), Prepared(0), Completed(0)))
  }

  function StoppedAccount(seen: GetResult, now: State, d: Condition): Account
    requires now.log != []
  {
    if seen.Found? then EarlyAccount(seen.version, seen.copy, now, d)
    else EarlyAccount(|now.log| - 1, Latest(now.log), now, d)
  }

  lemma RefusedPass(a: Scene, b: Scene, me: nat, world: World, digest: Digest, seen: GetResult, d: Condition)
    requires Grows(a.state, b.state) && SameMine(a.state, b.state, me) && PassDeeds(a.own, b.own, me, NONE)
    requires b.ledger == a.ledger && b.sent == a.sent && b.state.log != []
    requires if seen.Found? then IsVersion(b.state.log, seen.version, seen.copy) else b.own == a.own
    requires d == Started(d.since) && OnlySet(a.own, b.own, me, d)
    ensures PassDone(a, b, me, world, digest, StoppedReport(seen), StoppedAccount(seen, b.state, d))
    ensures a.state.log != [] && Gone(Latest(a.state.log)) && seen == Absent ==>
      Undisturbed(a, b, world, StoppedReport(seen), StoppedAccount(seen, b.state, d))
  {
    StopsEarly(a.state, b.state, me, a.ledger, b.ledger, world, StoppedReport(seen), StoppedAccount(seen, b.state, d),
               digest);
  }

  /** A pass over a resource marked for deletion, once its first condition is set. */
  lemma RetiredPass(a: Scene, m: Scene, b: Scene, me: nat, world: World, digest: Digest, p: PassReport, g: Account)
    requires Grows(a.state, m.state) && SameMine(a.state, m.state, me)
    requires Grows(m.state, b.state) && SameMine(m.state, b.state, me)
    requires AsNamed(g.ds) && OnlySet(a.own, m.own, me, g.ds.started) && m.own != a.own
    requires OnlyTakenOff(m.own, b.own, me)
    requires b.ledger == a.ledger && b.sent == a.sent
    requires p == PassReport(p.seen, Deleting, NOTHING, p.err, false, None) && p.seen.Found? && p.seen.copy.deleting
    requires IsVersion(b.state.log, p.seen.version, p.seen.copy) && (!p.err ==> Released(b.state.log, p.seen.version))
    requires g.version == p.seen.version && g.used == p.seen.copy && g.w == NoReading(b.state)
    ensures PassDone(a, b, me, world, digest, p, g)
  {
    StopsEarly(a.state, b.state, me, a.ledger, b.ledger, world, p, g, digest);
  }

  /** A pass that stops for want of a ConfigMap, a watch list, or a condition set. */
  lemma UnreadyPass(a: Scene, b: Scene, me: nat, world: World, digest: Digest, p: PassReport, g: Account)
    requires Grows(a.state, b.state) && SameMine(a.state, b.state, me) && PassDeeds(a.own, b.own, me, NONE)
    requires b.sent == a.sent && FailedOrCreated(a.ledger, b.ledger, p.err, p.result)
    requires b.ledger == a.ledger || (a.ledger.None? && b.ledger == Some(Empty))
    requires p == PassReport(p.seen, NotReady, p.result, p.err, false, None) && p.seen.Found? && !p.seen.copy.deleting
    requires IsVersion(b.state.log, p.seen.version, p.seen.copy) && UsedCopy(b.state.log, p.seen, g.version, g.used)
    requires AsNamed(g.ds) && g.w == NoReading(b.state)
    ensures PassDone(a, b, me, world, digest, p, g)
  {
    StopsEarly(a.state, b.state, me, a.ledger, b.ledger, world, p, g, digest);
  }

  /** The second half of a pass with this copy and this watch list. */
  ghost predicate HalfDone(a: Scene, b: Scene, me: nat, world: World, digest: Digest, copy: Resource, watch: Watch,
                           p: PassReport, order: seq<string>, w: Trail) {
    && Grows(a.state, b.state) && InOrder(a.state, w, b.state) && PassDeeds(a.own, b.own, me, w.commit)
    && IsEnumeration(order, watch.Keys) && (forall ns :: ns in order ==> ns in watch)
    && b.ledger == After(a.ledger, Flatten(order, watch), world.answers, world.faults, digest)
    && p.stage == (if Succeeds(a.ledger, Flatten(order, watch), world.answers, world.faults) then Hashed else NotHashed)
    && (p.stage.NotHashed? ==> !p.err && p.result == NOTHING)
    && Accounted(a.state, b.state, me, b.ledger, p, copy, w)
    && b.sent == a.sent + R.Sent(p.attempt)
  }

  /** The hashing failed, and nothing else was done. */
  lemma FailedHalf(a: Scene, b: Scene, me: nat, world: World, digest: Digest, copy: Resource, watch: Watch,
                   p: PassReport, order: seq<string>, w: Trail)
    requires b == a.(ledger := b.ledger) && w == NoReading(a.state)
    requires IsEnumeration(order, watch.Keys) && forall ns :: ns in order ==> ns in watch
    requires b.ledger == After(a.ledger, Flatten(order, watch), world.answers, world.faults, digest)
    requires !Succeeds(a.ledger, Flatten(order, watch), world.answers, world.faults)
    requires p == PassReport(p.seen, NotHashed, NOTHING, false, false, None)
    ensures HalfDone(a, b, me, world, digest, copy, watch, p, order, w)
  {
  }

  /** What is reported of a check that came after a successful hashing. */
  function ReportOf(seen: GetResult, o: Outcome, stamped: bool): PassReport {
    PassReport(seen, Hashed, if o.err || o.done then o.result else Result(false, Some(TEN_MINUTES)), o.err, stamped,
               o.attempt)
  }

  lemma CheckedHalf(a: Scene, b: Scene, me: nat, world: World, digest: Digest, copy: Resource, watch: Watch,
                    seen: GetResult, o: Outcome, stamped: bool, order: seq<string>, w: Trail)
    requires IsEnumeration(order, watch.Keys) && forall ns :: ns in order ==> ns in watch
    requires b.ledger == After(a.ledger, Flatten(order, watch), world.answers, world.faults, digest)
    requires Succeeds(a.ledger, Flatten(order, watch), world.answers, world.faults)
    requires Grows(a.state, b.state) && InOrder(a.state, w, b.state) && PassDeeds(a.own, b.own, me, w.commit)
    requires Stamps(a.state, b.state, me, copy.lastChecked, stamped, w)
    requires Told(a.state, b.state, me, b.ledger, copy.thresholdDays, o, stamped, w)
    requires b.sent == a.sent + R.Sent(o.attempt)
    ensures HalfDone(a, b, me, world, digest, copy, watch, ReportOf(seen, o, stamped), order, w)
  {
  }

  lemma CheckedQuietly(s: State, t: State, version: nat, copy: Resource, stored: Option<Blob>, world: World,
                       seen: GetResult, o: Outcome, stamped: bool, w: Trail, completed: Condition)
    requires s.log != [] && t.log != [] && !Gone(Latest(s.log)) && UpToDate(copy, s.log)
    requires
      var checked := s.(log := AfterCondition(s.log, completed));
      QuietCheck(checked, t, version, copy, stored, world.slack, o, stamped, w)
    ensures CompletesQuietly(s, t, version, copy, stored, world, ReportOf(seen, o, stamped), w, completed)
  {
    ConditionWrite(s.log, completed);
  }

  lemma HashedPass(a: Scene, m: Scene, b: Scene, me: nat, world: World, digest: Digest, watch: Watch, p: PassReport,
                   g: Account)
    requires Grows(a.state, m.state) && SameMine(a.state, m.state, me) && PassDeeds(a.own, m.own, me, NONE)
    requires m.ledger == a.ledger && m.sent == a.sent
    requires watch == W.ExpectedWatch(g.used.selection, world.cluster)
    requires HalfDone(m, b, me, world, digest, g.used, watch, p, g.order, g.w)
    requires p.seen.Found? && !p.seen.copy.deleting && IsVersion(b.state.log, p.seen.version, p.seen.copy)
    requires UsedCopy(m.state.log, p.seen, g.version, g.used) && AsNamed(g.ds)
    ensures PassDone(a, b, me, world, digest, p, g)
  {
    AccountedSince(a.state, m.state, b.state, me, b.ledger, p, g.used, g.w);
  }

  // ---------- the conditions of an undisturbed pass ----------

  /** The conditions one pass sets; the second only when it adds the finalizer. */
  datatype Conditions = Conditions(started: Condition, added: Condition, prepared: Condition, completed: Condition)

  predicate AsNamed(ds: Conditions) {
    && ds.started == Started(ds.started.since) && ds.added == FinalizerAdded(ds.added.since)
    && ds.prepared == Prepared(ds.prepared.since) && ds.completed == Completed(ds.completed.since)
  }

  /**
   The conditions that must be in place for a pass not to outdate its own copy: the three it sets or, when it reads the
   resource again to add the finalizer, those it sets from then on.
   */
  predicate SettledFor(cs: seq<Condition>, hasFinalizer: bool) {
    && HasCondition(cs, if hasFinalizer then Started(0) else FinalizerAdded(0))
    && HasCondition(cs, Prepared(0)) && HasCondition(cs, Completed(0))
  }

  function SetAll(cs: seq<Condition>, hasFinalizer: bool, ds: Conditions): seq<Condition> {
    var one := SetCondition(cs, ds.started);
    var two := if hasFinalizer then one else SetCondition(one, ds.added);
    SetCondition(SetCondition(two, ds.prepared), ds.completed)
  }

  /** A completed pass settles the conditions, for the passes after it and, had it been repeated, for itself. */
  lemma CompletedPassSettles(cs: seq<Condition>, hasFinalizer: bool, ds: Conditions)
    requires AsNamed(ds)
    ensures SettledFor(SetAll(cs, hasFinalizer, ds), true) && SettledFor(SetAll(cs, hasFinalizer, ds), hasFinalizer)
  {
    var one := SetCondition(cs, ds.started);
    var two := if hasFinalizer then one else SetCondition(one, ds.added);
    var three := SetCondition(two, ds.prepared);
    SetConditionFrame(cs, ds.started, Started(0));
    SetConditionFrame(one, ds.added, Started(0));
    SetConditionFrame(one, ds.added, FinalizerAdded(0));
    LastTwoStay(two, ds, Started(0));
    LastTwoStay(two, ds, FinalizerAdded(0));
    SetConditionFrame(two, ds.prepared, Prepared(0));
    SetConditionFrame(three, ds.completed, Prepared(0));
    SetConditionFrame(three, ds.completed, Completed(0));
  }

  lemma LastTwoStay(cs: seq<Condition>, ds: Conditions, c: Condition)
    requires AsNamed(ds) && c.kind != ds.prepared.kind && c.kind != ds.completed.kind
    ensures HasCondition(SetCondition(SetCondition(cs, ds.prepared), ds.completed), c) <==> HasCondition(cs, c)
  {
    SetConditionFrame(cs, ds.prepared, c);
    SetConditionFrame(SetCondition(cs, ds.prepared), ds.completed, c);
  }

  /** Once settled, the conditions of every later completed pass leave the list as it is, and only then. */
  lemma SettledIsFixpoint(cs: seq<Condition>, ds: Conditions)
    requires AsNamed(ds)
    ensures
      var one := SetCondition(cs, ds.started);
      var two := SetCondition(one, ds.prepared);
      one == cs && two == one && SetCondition(two, ds.completed) == two <==> SettledFor(cs, true)
  {
    var one := SetCondition(cs, ds.started);
    var two := SetCondition(one, ds.prepared);
    SetConditionIsIdleIffPresent(cs, ds.started);
    SetConditionIsIdleIffPresent(one, ds.prepared);
    SetConditionIsIdleIffPresent(two, ds.completed);
  }

  // ---------- the log of an undisturbed pass ----------

  /** Three conditions of different types leave the current version in place exactly when all were there. */
  lemma ThreeConditions(log: Log, a: Condition, b: Condition, d: Condition)
    requires log != [] && !Gone(Latest(log))
    requires a.kind != b.kind && a.kind != d.kind && b.kind != d.kind
    ensures
      var after := AfterCondition(AfterCondition(AfterCondition(log, a), b), d);
      var cs := Latest(log).conditions;
      && |log| <= |after|
      && (|after| == |log| <==> HasCondition(cs, a) && HasCondition(cs, b) && HasCondition(cs, d))
  {
    var cs := Latest(log).conditions;
    var one := AfterCondition(log, a);
    var two := AfterCondition(one, b);
    ConditionWrite(log, a);
    ConditionWrite(one, b);
    ConditionWrite(two, d);
    SetConditionFrame(cs, a, b);
    SetConditionFrame(cs, a, d);
    SetConditionFrame(SetCondition(cs, a), b, d);
  }

  /** The log after the finalizer was added, where it had to be. */
  function AdoptedLog(log: Log, hasFinalizer: bool, added: Condition): (after: Log)
    requires log != []
    ensures after != []
  {
    if hasFinalizer then log else AfterCondition(log + [WithFinalizer(Latest(log))], added)
  }

  /** The log when an undisturbed pass, having set its first condition, reaches the daily check. */
  function LogAtCheck(log: Log, hasFinalizer: bool, ds: Conditions): (after: Log)
    requires log != []
    ensures after != []
  {
    AfterCondition(AfterCondition(AdoptedLog(log, hasFinalizer, ds.added), ds.prepared), ds.completed)
  }

  /** The same, from the beginning of the pass. */
  function Reached(log: Log, ds: Conditions): (after: Log)
    requires log != []
    ensures after != []
  {
    LogAtCheck(AfterCondition(log, ds.started), FINALIZER in Latest(log).finalizers, ds)
  }

  /**
   The version an undisturbed pass has in hand is still the latest at the daily check exactly when the conditions were
   settled: the version read first or, when the finalizer was missing, the one its addition made.
   */
  lemma QuietPassIsDue(log: Log, ds: Conditions)
    requires log != [] && AsNamed(ds) && !Gone(Latest(log)) && !Latest(log).deleting
    ensures
      var begun := AfterCondition(log, ds.started);
      var has := FINALIZER in Latest(log).finalizers;
      && begun != [] && !Gone(Latest(begun))
      && ((if has then |log| - 1 else |begun|) == |Reached(log, ds)| - 1
          <==> SettledFor(Latest(log).conditions, has))
  {
    var begun := AfterCondition(log, ds.started);
    ConditionWrite(log, ds.started);
    if FINALIZER in Latest(log).finalizers {
      ThreeConditions(log, ds.started, ds.prepared, ds.completed);
    } else {
      ThreeConditions(begun + [WithFinalizer(Latest(begun))], ds.added, ds.prepared, ds.completed);
      SetConditionFrame(Latest(log).conditions, ds.started, ds.added);
      SetConditionFrame(Latest(log).conditions, ds.started, ds.prepared);
      SetConditionFrame(Latest(log).conditions, ds.started, ds.completed);
    }
  }

  /** What has become of the resource by then: conditions and finalizer, nothing else. */
  lemma ReachedContent(log: Log, ds: Conditions)
    requires log != [] && AsNamed(ds) && !Latest(log).deleting
    ensures
      var first := Latest(log);
      Latest(Reached(log, ds)) == WithFinalizer(first).(
        conditions := SetAll(first.conditions, FINALIZER in first.finalizers, ds))
  {
    var begun := AfterCondition(log, ds.started);
    var has := FINALIZER in Latest(log).finalizers;
    ConditionWrite(log, ds.started);
    if !has {
      ConditionWrite(begun + [WithFinalizer(Latest(begun))], ds.added);
    }
    var adopted := AdoptedLog(begun, has, ds.added);
    ConditionWrite(adopted, ds.prepared);
    ConditionWrite(AfterCondition(adopted, ds.prepared), ds.completed);
  }

  // ---------- an undisturbed pass ----------

  /** The annotation and the report may differ, nothing else. */
  predicate SameButStamp(r: Resource, now: Resource) {
    now == r.(lastChecked := now.lastChecked,
              secretStatus := now.secretStatus, staleSecretsCount := now.staleSecretsCount)
  }

  predicate SameReport(r: Resource, now: Resource) {
    now.secretStatus == r.secretStatus && now.staleSecretsCount == r.staleSecretsCount
  }

  /** The daily check of an undisturbed pass, which starts from this log. */
  predicate ChecksQuietly(s: State, t: State, reached: Log, stored: Option<Blob>, world: World, p: PassReport,
                          w: Trail) {
    && t.log != [] && reached != []
    && (p.attempt.Some? <==> p.stamped && Tellable(w.hourAt, stored, world.slack))
    && (if p.stamped then
          && SameButStamp(Latest(reached), Latest(t.log))
          && (p.attempt.None? || p.err ==> SameReport(Latest(reached), Latest(t.log)))
        else t.log == reached && t.stamps == s.stamps && t.notices == s.notices)
  }

  /**
   How far an undisturbed pass gets, and what it does there: it stamps exactly when it finds the annotation due and its
   own conditions were already in place, because otherwise its own status writes have made the copy it holds stale; and
   it notifies exactly when it has stamped, reads the right hour, and has a readable ledger and credentials. Unless it
   stamps, all it leaves in the store is its conditions and the finalizer.
   */
  predicate Undisturbed(a: Scene, b: Scene, world: World, p: PassReport, g: Account)
    requires a.state.log != []
  {
    var first := Latest(a.state.log);
    && GetsTo(first, a.ledger, b.ledger, world, p)
    && (p.stage.Hashed? ==>
          && g.used.selection == first.selection
          && (p.stamped <==>
                IsDue(first.lastChecked, g.w.checkedAt) && SettledFor(first.conditions, FINALIZER in first.finalizers))
          && (p.err <==>
                FailsQuietly(IsDue(first.lastChecked, g.w.checkedAt), p.stamped, g.w, b.ledger, world.slack))
          && ChecksQuietly(a.state, b.state, Reached(a.state.log, g.ds), b.ledger, world, p, g.w))
  }

  /** What was read first is still what is stored, its conditions aside. */
  predicate Fresh(seen: GetResult, log: Log) {
    seen.Found? && log != [] && !Gone(Latest(log)) && Latest(log) == seen.copy.(conditions := Latest(log).conditions)
  }

  /** The version an undisturbed pass works on: the one read first, or the one the addition of the finalizer made. */
  function VersionInHand(seen: GetResult, log: Log): int
    requires seen.Found?
  {
    if FINALIZER in seen.copy.finalizers then seen.version else |log|
  }

  /** The copy is what is stored, its conditions aside. */
  predicate UpToDate(copy: Resource, log: Log) {
    log != [] && !copy.deleting && Latest(log) == copy.(conditions := Latest(log).conditions)
  }

  /** The copy in hand is up to date, and carries the version it should. */
  predicate InHand(seen: GetResult, before: Log, version: nat, copy: Resource, log: Log) {
    && seen.Found? && version == VersionInHand(seen, before) && UpToDate(copy, log) && !Gone(Latest(log))
    && copy.lastChecked == seen.copy.lastChecked && copy.selection == seen.copy.selection
  }

  /** The second half of an undisturbed pass: the last condition, then the daily check. */
  predicate CompletesQuietly(s: State, t: State, version: nat, copy: Resource, stored: Option<Blob>, world: World,
                             p: PassReport, w: Trail, completed: Condition)
    requires s.log != []
  {
    var reached := AfterCondition(s.log, completed);
    p.stage.Hashed? ==>
      && (p.stamped <==> IsDue(copy.lastChecked, w.checkedAt) && version == |reached| - 1)
      && (p.err <==> FailsQuietly(IsDue(copy.lastChecked, w.checkedAt), p.stamped, w, stored, world.slack))
      && ChecksQuietly(s, t, reached, stored, world, p, w)
  }

  /** What was read first was the latest version, and the first condition is all that has been stored since. */
  predicate BegunBy(first: State, now: State, seen: GetResult, d: Condition) {
    && first.log != [] && !Gone(Latest(first.log)) && seen == Found(|first.log| - 1, Latest(first.log))
    && SameButLog(first, now) && now.log == AfterCondition(first.log, d) && Fresh(seen, now.log)
  }

  /**
   Half way through an undisturbed pass: `begun` is where the first condition is set, `m` where the ledger is next.
  */
  predicate ReadyQuietly(first: State, begun: State, m: State, seen: GetResult, version: nat, copy: Resource,
                         ds: Conditions) {
    && BegunBy(first, begun, seen, ds.started) && SameButLog(begun, m)
    && m.log == AfterCondition(AdoptedLog(begun.log, FINALIZER in seen.copy.finalizers, ds.added), ds.prepared)
    && InHand(seen, begun.log, version, copy, m.log)
  }

  lemma HashedUndisturbed(a: Scene, begun: State, m: State, b: Scene, world: World, p: PassReport, g: Account)
    requires ReadyQuietly(a.state, begun, m, p.seen, g.version, g.used, g.ds) && AsNamed(g.ds)
    requires !p.seen.copy.deleting && HashingStage(p.stage)
    requires CompletesQuietly(m, b.state, g.version, g.used, b.ledger, world, p, g.w, g.ds.completed)
    requires a.ledger.Some? && Listable(p.seen.copy.selection, world)
    ensures Undisturbed(a, b, world, p, g)
  {
    QuietPassIsDue(a.state.log, g.ds);
  }

  // ---------- a second pass ----------

  /** A pass that got through undisturbed leaves its successors settled: finalizer and conditions are in place. */
  lemma PassLeavesSettled(a: Scene, b: Scene, world: World, p: PassReport, g: Account)
    requires a.state.log != [] && AsNamed(g.ds) && p.stage.Hashed? && Undisturbed(a, b, world, p, g)
    ensures b.state.log != []
    ensures
      var first, last := Latest(a.state.log), Latest(b.state.log);
      && SettledFor(last.conditions, true) && FINALIZER in last.finalizers
      && last.selection == first.selection && !last.deleting
  {
    var first := Latest(a.state.log);
    ReachedContent(a.state.log, g.ds);
    CompletedPassSettles(first.conditions, FINALIZER in first.finalizers, g.ds);
  }

  /** From a settled resource, the conditions of a pass make no new version. */
  lemma SettledStays(log: Log, ds: Conditions)
    requires log != [] && AsNamed(ds) && !Latest(log).deleting
    requires FINALIZER in Latest(log).finalizers && SettledFor(Latest(log).conditions, true)
    ensures Reached(log, ds) == log
  {
    SettledIsFixpoint(Latest(log).conditions, ds);
    ConditionWrite(log, ds.started);
    assert AfterCondition(log, ds.started) == log;
    ConditionWrite(log, ds.prepared);
    assert AfterCondition(log, ds.prepared) == log;
    ConditionWrite(log, ds.completed);
  }

  /** A hashing pass over this snapshot of the secrets, with nobody else at the ConfigMap. */
  ghost predicate HashesOver(snapshot: Snapshot, world: World, p: PassReport, g: Account) {
    && p.stage.Hashed? && world.faults.meanwhile.None?
    && (forall ns :: ns in g.order ==> ns in W.ExpectedWatch(g.used.selection, world.cluster))
    && AnsweredFrom(snapshot, Flatten(g.order, W.ExpectedWatch(g.used.selection, world.cluster)), world.answers)
  }

  /**
   After a pass that got through, a second one over an unchanged cluster, both undisturbed, changes nothing at all
   unless it finds the annotation due: neither the resource, down to its version, nor a stamp, nor the stored ledger;
   and it sends nothing.
  */
  lemma SecondPassChangesNothing(a: Scene, b: Scene, c: Scene, me: nat, digest: Digest, snapshot: Snapshot,
                                 world: World, p: PassReport, g: Account, world': World, p': PassReport, g': Account)
    requires a.state.log != [] && b.state.log != []
    requires PassDone(a, b, me, world, digest, p, g) && Undisturbed(a, b, world, p, g)
    requires PassDone(b, c, me, world', digest, p', g') && Undisturbed(b, c, world', p', g')
    requires HashesOver(snapshot, world, p, g) && HashesOver(snapshot, world', p', g')
    requires world'.cluster == world.cluster && !IsDue(Latest(b.state.log).lastChecked, g'.w.checkedAt)
    ensures c.state.log == b.state.log && c.state.stamps == b.state.stamps && c.state.notices == b.state.notices
    ensures c.ledger == b.ledger && c.sent == b.sent
  {
    PassLeavesSettled(a, b, world, p, g);
    SettledStays(b.state.log, g'.ds);
    SecondPassStoresTheSame(a.ledger, snapshot, W.ExpectedWatch(g.used.selection, world.cluster), digest,
                            world.faults, g.order, world.answers, world'.faults, g'.order, world'.answers);
  }

  // ---------- passes and the runs of the ledger ----------

  /**
   What a pass is to a run of the ledger: nothing, the creation of the ConfigMap, or the hashing pass of its own copy.
  */
  function EventsOf(before: Option<Blob>, after: Option<Blob>, stage: Stage, used: Resource, world: World,
                    order: seq<string>): seq<L.Event> {
    if HashingStage(stage) then [L.Pass(used.selection, world.cluster, order, world.answers, world.faults)]
    else if after == before then []
    else [L.ConfigMapCreated]
  }

  /**
   A pass nobody overlaps continues a run of the ledger by its own events, so what holds of all runs holds of passes.
  */
  lemma PassIsLedgerEvent(events: seq<L.Event>, after: Option<Blob>, stage: Stage, used: Resource, world: World,
                          order: seq<string>, digest: Digest)
    requires L.PossibleRun(events) && world.faults.meanwhile.None?
    requires LedgerStep(L.Run(events, digest), after, stage, used, world, order, digest)
    ensures
      var more := EventsOf(L.Run(events, digest), after, stage, used, world, order);
      L.PossibleRun(events + more) && L.Run(events + more, digest) == after
  {
    var before := L.Run(events, digest);
    var more := EventsOf(before, after, stage, used, world, order);
    if more == [] {
      assert events + more == events;
    } else {
      L.RunSplits(events, more[0], digest);
      assert more == [more[0]];
    }
  }

  /** A pass leaves alone the entry of a secret that the resource it works on excludes. */
  lemma PassSkipsExcluded(before: Option<Blob>, after: Option<Blob>, stage: Stage, used: Resource, world: World,
                          order: seq<string>, digest: Digest, k: Ledger.Key)
    requires LedgerStep(before, after, stage, used, world, order, digest)
    requires world.faults.meanwhile.None? && before != Some(Corrupt)
    requires W.Excluded(used.selection, k.namespace, k.name)
    ensures Ledger.Lookup(BookOf(after), k) == Ledger.Lookup(BookOf(before), k)
  {
    if HashingStage(stage) {
      var e := L.Pass(used.selection, world.cluster, order, world.answers, world.faults);
      W.WatchListIsExact(used.selection, world.cluster, k.namespace, k.name);
      L.StepLeavesUnwatched(before, e, digest, k);
    }
  }
}
