/** One reconcile pass, from the first read of the custom resource to what is returned to the queue. */
module Reconcile {
  import opened Common
  import opened Resources
  import opened DailyCheck
  import opened Cluster
  import opened DailyChecks
  import opened PassSpec
  import R = Report
  import H = HashPass
  import W = WatchList

  /** Sets one of the named conditions; undisturbed, its effect on the log is exactly that write. */
  method SetPassCondition(c: Cluster, wanted: Condition) returns (ok: bool, ghost d: Condition)
    requires c.Valid() && IsNamed(wanted)
    modifies c
    ensures c.Onward() && PassDeeds(old(c.own), c.own, c.me, NONE)
    ensures d == wanted.(since := d.since)
    ensures OnlySet(old(c.own), c.own, c.me, d) && (ok ==> c.own != old(c.own))
    ensures old(c.Quiet()) ==> c.Quiet()
    ensures old(c.Quiet()) ==> (ok <==> !Gone(Latest(old(c.state).log)))
    ensures old(c.Quiet()) && ok ==>
      SameButLog(old(c.state), c.state) && c.state.log == AfterCondition(old(c.state).log, d)
  {
    ghost var before, took;
    ok, before, d, took := c.UpdateStatusCondition(wanted.kind, wanted.status, wanted.words);
    assert IsNamed(d);
  }

  /** Between the first condition and the hashing: the ConfigMap exists, and the watch list is known. */
  method GetReady(c: Cluster, copy: Resource, cm: H.ConfigMapStore, world: World)
      returns (watch: Option<H.Watch>, result: Result, err: bool, ghost d: Condition)
    requires c.Valid()
    modifies c, cm
    ensures c.Onward() && PassDeeds(old(c.own), c.own, c.me, NONE)
    ensures watch.Some? ==> watch.value == W.ExpectedWatch(copy.selection, world.cluster) && unchanged(cm)
    ensures watch.None? ==> FailedOrCreated(old(cm.stored), cm.stored, err, result)
    ensures cm.stored == old(cm.stored) || (old(cm.stored).None? && cm.stored == Some(H.Empty))
    ensures cm.writes == old(cm.writes)
    ensures d == Prepared(d.since)
    ensures old(c.Quiet()) ==> c.Quiet()
    ensures old(c.Quiet()) && !Gone(Latest(old(c.state).log)) ==>
      Readied(copy.selection, old(cm.stored), cm.stored, world, watch.Some?, err)
    ensures old(c.Quiet()) && watch.Some? ==>
      SameButLog(old(c.state), c.state) && c.state.log == AfterCondition(old(c.state).log, d)
  {
    watch, result, err, d := None, NOTHING, true, Prepared(0);
    var t := c.Play();
    if t.broken {
      return;
    }
    if cm.stored.None? {
      err, result := CreateConfigMap(c, cm);
      return;
    }
    watch, d := ListAndAnnounce(c, copy, world);
    err := watch.None?;
  }

  /** The watch list, the condition that announces it, and the second look at the ConfigMap. */
  method ListAndAnnounce(c: Cluster, copy: Resource, world: World) returns (watch: Option<H.Watch>, ghost d: Condition)
    requires c.Valid()
    modifies c
    ensures c.Onward() && PassDeeds(old(c.own), c.own, c.me, NONE)
    ensures watch.Some? ==> watch.value == W.ExpectedWatch(copy.selection, world.cluster)
    ensures d == Prepared(d.since)
    ensures old(c.Quiet()) ==> c.Quiet()
    ensures old(c.Quiet()) && !Gone(Latest(old(c.state).log)) ==> (watch.Some? <==> Listable(copy.selection, world))
    ensures old(c.Quiet()) && watch.Some? ==>
      SameButLog(old(c.state), c.state) && c.state.log == AfterCondition(old(c.state).log, d)
  {
    watch, d := None, Prepared(0);
    var list, _ := W.PrepareWatchList(copy.selection, world.cluster, world.failing);
    if list.None? {
      return;
    }
    var ok;
    ok, d := SetPassCondition(c, Prepared(0));
    if !ok {
      return;
    }
    var t := c.Play();
    if t.broken {
      return;
    }
    watch := list;
  }

  method CreateConfigMap(c: Cluster, cm: H.ConfigMapStore) returns (err: bool, result: Result)
    requires c.Valid() && cm.stored.None?
    modifies c, cm
    ensures c.Onward() && PassDeeds(old(c.own), c.own, c.me, NONE)
    ensures cm.writes == old(cm.writes) && (cm.stored.None? || cm.stored == Some(H.Empty))
    ensures FailedOrCreated(old(cm.stored), cm.stored, err, result)
    ensures old(c.Quiet()) ==> c.Quiet()
    ensures old(c.Quiet()) && !Gone(Latest(old(c.state).log)) ==> !err && cm.stored == Some(H.Empty)
  {
    err, result := true, NOTHING;
    var t := c.Play();
    if t.broken {
      return;
    }
    cm.CreateEmpty();
    if t.lost {
      return;
    }
    var ok, _ := SetPassCondition(c, ConfigMapAdded(0));
    err := !ok;
    result := if ok then Result(true, None) else NOTHING;
  }

  /**
   A resource seen marked for deletion: on success this operator's finalizer is off the latest version. All the call
   ever does is that removal, which it may have done without hearing of it.
   */
  method HandleDeletion(c: Cluster, version: nat, copy: Resource) returns (ok: bool)
    requires c.Valid() && LegalLog(c.origin.log)
    requires version < |c.state.log| && c.state.log[version] == copy && copy.deleting
    modifies c
    ensures c.Onward()
    ensures ok ==> Released(c.state.log, version)
    ensures OnlyTakenOff(old(c.own), c.own, c.me)
    ensures FINALIZER !in copy.finalizers ==> ok && c.own == old(c.own)
    ensures ok && FINALIZER in copy.finalizers ==> c.own != old(c.own)
    ensures old(c.Quiet()) && !Gone(Latest(old(c.state).log)) ==> ok
  {
    ghost var before, took;
    ok, before, took := c.RemoveFinalizer(copy);
    if !took && ok {
      RunKeepsLegalLog(c.origin, c.history);
      AlreadyReleased(c.state.log, version);
    }
  }

  /** The last condition, then the daily check. */
  method CompleteAndCheck(c: Cluster, version: nat, copy: Resource, cm: H.ConfigMapStore, slack: R.Slack,
                          outbox: R.Outbox)
      returns (o: Outcome, stamped: bool, ghost w: Trail, ghost d: Condition)
    requires c.Valid() && version < |c.state.log| && CopyOf(copy, c.state.log[version])
    modifies c, outbox
    ensures c.Valid() && old(c.history) <= c.history && Grows(old(c.state), c.state)
    ensures PassDeeds(old(c.own), c.own, c.me, w.commit)
    ensures InOrder(old(c.state), w, c.state)
    ensures Stamps(old(c.state), c.state, c.me, copy.lastChecked, stamped, w)
    ensures Told(old(c.state), c.state, c.me, cm.stored, copy.thresholdDays, o, stamped, w)
    ensures outbox.sent == old(outbox.sent) + R.Sent(o.attempt)
    ensures d == Completed(d.since)
    ensures o.err ==> o.result == NOTHING
    ensures old(c.Quiet()) && !copy.deleting && !Gone(Latest(old(c.state).log)) ==>
      QuietCheck(old(c.state).(log := AfterCondition(old(c.state).log, d)), c.state, version, copy, cm.stored, slack,
                 o, stamped, w)
  {
    var ok;
    ok, d := SetPassCondition(c, Completed(0));
    if !ok {
      o, stamped, w := Outcome(false, true, NOTHING, None), false, NoReading(c.state);
      return;
    }
    o, stamped, w := PerformDailyChecks(c, version, copy, cm, slack, outbox);
  }

  /** The second half of a pass: hash and store, report completion, run the daily check. */
  method HashAndCheck(c: Cluster, seen: GetResult, version: nat, copy: Resource, cm: H.ConfigMapStore, watch: H.Watch,
                      world: World, outbox: R.Outbox, digest: H.Digest)
      returns (p: PassReport, ghost order: seq<string>, ghost w: Trail, ghost d: Condition)
    requires c.Valid() && version < |c.state.log| && CopyOf(copy, c.state.log[version])
    modifies c, cm, outbox
    ensures c.Valid() && old(c.history) <= c.history
    ensures HalfDone(old(SceneOf(c, cm, outbox)), SceneOf(c, cm, outbox), c.me, world, digest, copy, watch, p, order, w)
    ensures p.seen == seen && d == Completed(d.since)
    ensures old(c.Quiet()) && !Gone(Latest(old(c.state).log)) && UpToDate(copy, old(c.state).log) ==>
      CompletesQuietly(old(c.state), c.state, version, copy, cm.stored, world, p, w, d)
  {
    ghost var first := SceneOf(c, cm, outbox);
    d, w := Completed(0), NoReading(c.state);
    var hashed;
    hashed, order := H.CalculateAndStoreHashedSecrets(cm, watch, world.answers, world.faults, digest);
    if !hashed {  // the error returned here is an older one, and nil
      p := PassReport(seen, NotHashed, NOTHING, false, false, None);
      FailedHalf(first, SceneOf(c, cm, outbox), c.me, world, digest, copy, watch, p, order, w);
      return;
    }
    var o, stamped;
    o, stamped, w, d := CompleteAndCheck(c, version, copy, cm, world.slack, outbox);
    p := ReportOf(seen, o, stamped);
    CheckedHalf(first, SceneOf(c, cm, outbox), c.me, world, digest, copy, watch, seen, o, stamped, order, w);
    if old(c.Quiet()) && !Gone(Latest(first.state.log)) && UpToDate(copy, first.state.log) {
      CheckedQuietly(first.state, c.state, version, copy, cm.stored, world, seen, o, stamped, w, d);
    }
  }

  /** One reconcile pass. */
  method Reconcile(c: Cluster, cm: H.ConfigMapStore, world: World, outbox: R.Outbox, digest: H.Digest)
      returns (p: PassReport, ghost g: Account)
    requires c.Valid() && LegalLog(c.origin.log)
    modifies c, cm, outbox
    ensures c.Valid() && old(c.history) <= c.history
    ensures PassDone(old(SceneOf(c, cm, outbox)), SceneOf(c, cm, outbox), c.me, world, digest, p, g)
    ensures old(c.Quiet()) ==> Undisturbed(old(SceneOf(c, cm, outbox)), SceneOf(c, cm, outbox), world, p, g)
  {
    ghost var first := SceneOf(c, cm, outbox);
    var seen, ok;
    ghost var d;
    seen, ok, d := Begin(c);
    if !ok {
      p := StoppedReport(seen);
      g := StoppedAccount(seen, c.state, d);
      RefusedPass(first, SceneOf(c, cm, outbox), c.me, world, digest, seen, d);
    } else if seen.copy.deleting {
      p, g := Retire(c, seen, cm, world, outbox, digest, d, first);
    } else {
      p, g := Work(c, seen, cm, world, outbox, digest, d, first);
    }
  }

  /** The pass over a resource marked for deletion, told from `first`, where it began. */
  method Retire(c: Cluster, seen: GetResult, cm: H.ConfigMapStore, ghost world: World, outbox: R.Outbox,
                ghost digest: H.Digest, ghost d: Condition, ghost first: Scene)
      returns (p: PassReport, ghost g: Account)
    requires c.Valid() && LegalLog(c.origin.log) && d == Started(d.since)
    requires seen.Found? && IsVersion(c.state.log, seen.version, seen.copy) && seen.copy.deleting
    requires Grows(first.state, c.state) && SameMine(first.state, c.state, c.me)
    requires OnlySet(first.own, c.own, c.me, d) && c.own != first.own
    requires cm.stored == first.ledger && outbox.sent == first.sent
    modifies c
    ensures c.Valid() && old(c.history) <= c.history
    ensures PassDone(first, SceneOf(c, cm, outbox), c.me, world, digest, p, g)
    ensures old(c.Quiet()) && BegunBy(first.state, old(c.state), seen, d) ==>
      Undisturbed(first, SceneOf(c, cm, outbox), world, p, g)
  {
    ghost var middle := SceneOf(c, cm, outbox);
    var removed := HandleDeletion(c, seen.version, seen.copy);
    p := PassReport(seen, Deleting, NOTHING, !removed, false, None);
    g := EarlyAccount(seen.version, seen.copy, c.state, d);
    RetiredPass(first, middle, SceneOf(c, cm, outbox), c.me, world, digest, p, g);
  }

  /** The pass over a resource that is not being deleted, told from `first`, where it began. */
  method Work(c: Cluster, seen: GetResult, cm: H.ConfigMapStore, world: World, outbox: R.Outbox, digest: H.Digest,
              ghost d: Condition, ghost first: Scene)
      returns (p: PassReport, ghost g: Account)
    requires c.Valid() && d == Started(d.since)
    requires seen.Found? && IsVersion(c.state.log, seen.version, seen.copy) && !seen.copy.deleting
    requires Grows(first.state, c.state) && SameMine(first.state, c.state, c.me)
    requires PassDeeds(first.own, c.own, c.me, NONE)
    requires cm.stored == first.ledger && outbox.sent == first.sent
    modifies c, cm, outbox
    ensures c.Valid() && old(c.history) <= c.history
    ensures PassDone(first, SceneOf(c, cm, outbox), c.me, world, digest, p, g)
    ensures old(c.Quiet()) && BegunBy(first.state, old(c.state), seen, d) ==>
      Undisturbed(first, SceneOf(c, cm, outbox), world, p, g)
  {
    var version, copy, watch, result, err;
    ghost var added, prepared;
    ghost var begun := c.state;
    version, copy, watch, result, err, added, prepared := Adopt(c, seen, cm, world);
    ghost var ds := Conditions(d, added, prepared, Completed(0));
    if watch.None? {
      p := PassReport(seen, NotReady, result, err, false, None);
      g := Account(version, copy, [], NoReading(c.state), ds);
      UnreadyPass(first, SceneOf(c, cm, outbox), c.me, world, digest, p, g);
    } else {
      p, g := Finish(c, seen, version, copy, watch.value, cm, world, outbox, digest, ds, first, begun);
    }
  }

  /** The rest of the pass once the watch list is known; `begun` is where its first condition was set. */
  method Finish(c: Cluster, seen: GetResult, version: nat, copy: Resource, watch: H.Watch, cm: H.ConfigMapStore,
                world: World, outbox: R.Outbox, digest: H.Digest, ghost ds: Conditions, ghost first: Scene,
                ghost begun: State)
      returns (p: PassReport, ghost g: Account)
    requires c.Valid() && AsNamed(ds) && watch == W.ExpectedWatch(copy.selection, world.cluster)
    requires seen.Found? && IsVersion(c.state.log, seen.version, seen.copy) && !seen.copy.deleting
    requires UsedCopy(c.state.log, seen, version, copy)
    requires Grows(first.state, c.state) && SameMine(first.state, c.state, c.me)
    requires PassDeeds(first.own, c.own, c.me, NONE)
    requires cm.stored == first.ledger && outbox.sent == first.sent
    modifies c, cm, outbox
    ensures c.Valid() && old(c.history) <= c.history
    ensures PassDone(first, SceneOf(c, cm, outbox), c.me, world, digest, p, g)
    ensures
      && old(c.Quiet()) && ReadyQuietly(first.state, begun, old(c.state), seen, version, copy, ds)
      && first.ledger.Some? && Listable(seen.copy.selection, world) ==>
        Undisturbed(first, SceneOf(c, cm, outbox), world, p, g)
  {
    ghost var middle := SceneOf(c, cm, outbox);
    ghost var order, w, completed;
    p, order, w, completed := HashAndCheck(c, seen, version, copy, cm, watch, world, outbox, digest);
    g := Account(version, copy, order, w, ds.(completed := completed));
    HashedPass(first, middle, SceneOf(c, cm, outbox), c.me, world, digest, watch, p, g);
    if && old(c.Quiet()) && ReadyQuietly(first.state, begun, middle.state, seen, version, copy, ds)
       && first.ledger.Some? && Listable(seen.copy.selection, world) {
      HashedUndisturbed(first, begun, middle.state, SceneOf(c, cm, outbox), world, p, g);
    }
  }

  /** The first read and the first condition. */
  method Begin(c: Cluster) returns (seen: GetResult, ok: bool, ghost d: Condition)
    requires c.Valid()
    modifies c
    ensures c.Onward() && PassDeeds(old(c.own), c.own, c.me, NONE)
    ensures seen.Found? ==> IsVersion(c.state.log, seen.version, seen.copy)
    ensures !seen.Found? ==> c.own == old(c.own)
    ensures d == Started(d.since) && OnlySet(old(c.own), c.own, c.me, d)
    ensures ok ==> seen.Found? && c.own != old(c.own)
    ensures old(c.Quiet()) && !Gone(Latest(old(c.state).log)) ==> ok
    ensures old(c.Quiet()) && Gone(Latest(old(c.state).log)) ==> seen == Absent && !ok
    ensures old(c.Quiet()) && ok ==> c.Quiet() && BegunBy(old(c.state), c.state, seen, d)
  {
    ok, d := false, Started(0);
    seen := c.Get();
    if seen.Found? {
      ok, d := SetPassCondition(c, Started(0));
      if !Gone(Latest(old(c.state).log)) {
        ConditionWrite(old(c.state).log, d);
      }
    }
  }

  /** Makes sure of the finalizer, the ConfigMap and the watch list. */
  method Adopt(c: Cluster, seen: GetResult, cm: H.ConfigMapStore, world: World)
      returns (version: nat, copy: Resource, watch: Option<H.Watch>, result: Result, err: bool,
               ghost added: Condition, ghost prepared: Condition)
    requires c.Valid()
    requires seen.Found? && IsVersion(c.state.log, seen.version, seen.copy) && !seen.copy.deleting
    modifies c, cm
    ensures c.Onward() && PassDeeds(old(c.own), c.own, c.me, NONE)
    ensures UsedCopy(c.state.log, seen, version, copy)
    ensures watch.Some? ==> watch.value == W.ExpectedWatch(copy.selection, world.cluster) && unchanged(cm)
    ensures watch.None? ==> FailedOrCreated(old(cm.stored), cm.stored, err, result)
    ensures cm.stored == old(cm.stored) || (old(cm.stored).None? && cm.stored == Some(H.Empty))
    ensures added == FinalizerAdded(added.since) && prepared == Prepared(prepared.since)
    ensures old(c.Quiet()) && Fresh(seen, old(c.state).log) ==>
      Readied(seen.copy.selection, old(cm.stored), cm.stored, world, watch.Some?, err)
    ensures old(c.Quiet()) && Fresh(seen, old(c.state).log) && watch.Some? ==>
      var log := AdoptedLog(old(c.state).log, FINALIZER in seen.copy.finalizers, added);
      && c.Quiet() && SameButLog(old(c.state), c.state) && c.state.log == AfterCondition(log, prepared)
      && InHand(seen, old(c.state).log, version, copy, c.state.log)
  {
    version, copy, added := EnsureFinalizer(c, seen);
    ghost var log := c.state.log;
    watch, result, err, prepared := GetReady(c, copy, cm, world);
    if !Gone(Latest(log)) {
      ConditionWrite(log, prepared);
    }
  }

  /** The copy read first when it has the finalizer; otherwise the one left in hand by the attempt to add it. */
  method EnsureFinalizer(c: Cluster, seen: GetResult) returns (version: nat, copy: Resource, ghost added: Condition)
    requires c.Valid()
    requires seen.Found? && IsVersion(c.state.log, seen.version, seen.copy) && !seen.copy.deleting
    modifies c
    ensures c.Onward() && PassDeeds(old(c.own), c.own, c.me, NONE)
    ensures UsedCopy(c.state.log, seen, version, copy)
    ensures added == FinalizerAdded(added.since)
    ensures old(c.Quiet()) ==> c.Quiet()
    ensures old(c.Quiet()) && Fresh(seen, old(c.state).log) ==>
      && SameButLog(old(c.state), c.state)
      && c.state.log == AdoptedLog(old(c.state).log, FINALIZER in seen.copy.finalizers, added)
      && InHand(seen, old(c.state).log, version, copy, c.state.log)
  {
    ghost var log := c.state.log;
    version, copy, added := c.AddFinalizer(seen.version, seen.copy);
    if Fresh(seen, log) && FINALIZER !in seen.copy.finalizers {
      ConditionWrite(log + [WithFinalizer(Latest(log))], added);
    }
  }

  // ---------- what the protocol says about passes ----------

  /** Nobody else sets the annotation back behind the last stamp. */
  ghost predicate OthersRespectful(origin: State, history: seq<Action>, me: nat)
    requires origin.log != []
  {
    forall h | 0 <= h < |history| && !Mine(history[h], me) :: Respectful(Run(origin, history[..h]), history[h])
  }

  lemma {:induction false} AllRespectful(origin: State, history: seq<Action>, me: nat)
    requires origin.log != [] && OwnRespectful(origin, history, me) && OthersRespectful(origin, history, me)
    ensures RespectfulRun(origin, history)
  {
    if history == [] {
    } else {
      var n := |history| - 1;
      assert forall h :: 0 <= h < n ==> history[..n][..h] == history[..h] && history[..n][h] == history[h];
      assert Respectful(Run(origin, history[..n]), history[n]);
      AllRespectful(origin, history[..n], me);
    }
  }

  /**
   Whatever passes a reconciler has run, among any number of others: as long as those others do not set the annotation
   back behind the last stamp, stamps are days apart and notification attempts no more frequent than one a day.
  */
  lemma PassesObeyTheLimit(c: Cluster)
    requires c.Valid() && Initial(c.origin) && OthersRespectful(c.origin, c.history, c.me)
    ensures Spaced(c.state)
  {
    AllRespectful(c.origin, c.history, c.me);
    RateLimit(c.origin, c.history);
  }

  /** A pass woken no earlier than it asked to be finds the guard open against the very stamp it sleeps on. */
  lemma WokenPassIsDue(c: Cluster, stamp: nat, delay: int, now: int)
    requires c.Valid() && Inv(c.origin)
    requires SleepsFor(c.state, c.me, stamp, delay) && now >= c.state.clock + delay
    ensures stamp in MyStamps(c.state.stamps, c.me) && IsDue(StampText(c.state.stamps[stamp].at), now)
  {
    RunKeepsInv(c.origin, c.history);
    WakeIsNeverEarly(c.state, c.me, now);
    assert ProcOk(c.state, c.me, ProcOf(c.state, c.me));
  }
}
