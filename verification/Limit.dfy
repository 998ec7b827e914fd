/**
 What the rate limit rests on, exactly: whether from a given state two stamps can still come too close, and whether one
 write makes that possible.
 */
module Limit {
  import opened Clock
  import opened Resources
  import opened DailyCheck

  function LastSecond(s: State): int
    requires s.stamps != []
  {
    StoredSecond(s.stamps[|s.stamps| - 1])
  }

  /** The first stamp stored since `s` is less than a day after the last one before. */
  predicate TooSoon(s: State, t: State) {
    && 0 < |s.stamps| < |t.stamps| && s.stamps <= t.stamps
    && StoredSecond(t.stamps[|s.stamps|]) < LastSecond(s) + DAY_IN_SECONDS
  }

  /** Some continuation without another harmful write stores a stamp too soon. */
  ghost predicate CanBreak(s: State)
    requires s.log != []
  {
    exists actions :: RespectfulRun(s, actions) && TooSoon(s, Run(s, actions))
  }

  /** The annotation is behind the last stamp. */
  predicate Behind(s: State)
    requires s.log != []
  {
    !NotEarlier(s, Latest(s.log).lastChecked)
  }

  /** A stamp prepared on the latest version, less than a day after the last one stored, is about to be accepted. */
  predicate Pending(s: State, r: nat)
    requires s.log != [] && s.stamps != []
  {
    && r in s.procs && s.procs[r].Stamping?
    && Judge(s.log, s.procs[r].version, StampedObject(s, s.procs[r])) == Stored
    && s.procs[r].at / SECOND < LastSecond(s) + DAY_IN_SECONDS
  }

  /** The day of the last stamp is not over, or a stamp from that day is on its way. */
  ghost predicate StillSoon(s: State)
    requires s.log != [] && s.stamps != []
  {
    s.clock / SECOND < LastSecond(s) + DAY_IN_SECONDS || exists r :: Pending(s, r)
  }

  /**
   The limit can be broken from a state, without any further harmful write, if and only if the annotation is behind the
   last stamp and there is still a stamp to be had within that stamp's day.
   */
  lemma LimitBreaksIff(s: State)
    requires Inv(s) && s.stamps != []
    ensures CanBreak(s) <==> Behind(s) && StillSoon(s)
  {
    if CanBreak(s) {
      var actions :| RespectfulRun(s, actions) && TooSoon(s, Run(s, actions));
      BreakingNeedsABehind(s, actions);
    }
    if Behind(s) && StillSoon(s) {
      BehindBreaks(s);
    }
  }

  /**
   What one accepted write by somebody else does, as the writer can tell beforehand: it lets the limit be broken if and
   only if it sets the annotation before the last stamp, during the day of that stamp.
   */
  lemma WriteBreaksIff(s: State, a: Action)
    requires Inv(s) && s.stamps != []
    requires a.OtherWrite? && Judge(s.log, a.version, a.content) == Stored && a.content != Latest(s.log)
    ensures Apply(s, a).log != []
    ensures CanBreak(Apply(s, a)) <==>
      && LastInstant(a.content.lastChecked) < LastInstant(StampText(s.stamps[|s.stamps| - 1].at))
      && s.clock / SECOND < LastSecond(s) + DAY_IN_SECONDS
  {
    var t := Apply(s, a);
    assert t.log == s.log + [a.content];
    ApplyKeepsInv(s, a);
    LimitBreaksIff(t);
    forall r
      ensures !Pending(t, r)
    {
      if r in s.procs {
        assert ProcOk(s, r, s.procs[r]);
      }
    }
  }

  // ---------- a break needs an annotation that is behind ----------

  /** No stamp has been stored since `s`: what is prepared now was prepared since, or is on its way as it was then. */
  ghost predicate Waiting(s: State, t: State)
    requires s.log != [] && t.log != []
  {
    && s.log <= t.log && s.clock <= t.clock && t.stamps == s.stamps && (Behind(t) ==> Behind(s))
    && PreparedSince(s, t)
  }

  /** What is prepared now was prepared since, or was so then. */
  predicate PreparedSince(s: State, t: State) {
    forall r | r in t.procs && t.procs[r].Stamping? ::
      t.procs[r].at >= s.clock || (r in s.procs && t.procs[r] == s.procs[r])
  }

  ghost predicate Watched(s: State, t: State)
    requires Inv(s) && s.stamps != []
  {
    && Inv(t) && s.stamps <= t.stamps
    && (|t.stamps| == |s.stamps| ==> Waiting(s, t))
    && (TooSoon(s, t) ==> Behind(s) && StillSoon(s))
  }

  lemma FirstStampIsWatched(s: State, t: State, r: nat, heard: bool)
    requires Inv(s) && s.stamps != [] && Inv(t) && Waiting(s, t) && Accepted(t, r)
    ensures Watched(s, Apply(t, CommitStamp(r, true, heard)))
  {
    var p := t.procs[r];
    AcceptedStamp(t, r, heard);
    AcceptedStampKeepsInv(t, r, heard);
    if p.at / SECOND < LastSecond(s) + DAY_IN_SECONDS {
      if !Behind(t) {
        DueIsADayLater(p.copy.lastChecked, s.stamps[|s.stamps| - 1].at, p.checkedAt, p.at);
      }
      if p.at < s.clock {
        assert ProcOk(s, r, s.procs[r]);
        assert t.log == s.log;
        assert Pending(s, r);
      }
    }
  }

  lemma StepPreparesLater(s: State, t: State, a: Action)
    requires t.log != [] && s.clock <= t.clock && PreparedSince(s, t)
    ensures PreparedSince(s, Apply(t, a))
  {
    var u := Apply(t, a);
    forall r | r in u.procs && u.procs[r].Stamping?
      ensures u.procs[r].at >= s.clock || (r in s.procs && u.procs[r] == s.procs[r])
    {
      assert r in t.procs;
      assert u.procs[r] == t.procs[r] || u.procs[r].at == t.clock;
    }
  }

  lemma OtherStepWaits(s: State, t: State, a: Action)
    requires Inv(s) && s.stamps != [] && Inv(t) && Waiting(s, t) && Respectful(t, a)
    requires a.CommitStamp? ==> !(a.sent && Accepted(t, a.who))
    ensures Apply(t, a).log != [] && Waiting(s, Apply(t, a))
  {
    OtherStepHoldsBack(t, a);
    ApplyKeepsLog(t, a);
    StepPreparesLater(s, t, a);
  }

  lemma StepIsWatched(s: State, t: State, a: Action)
    requires Inv(s) && s.stamps != [] && Watched(s, t) && Respectful(t, a)
    ensures Watched(s, Apply(t, a))
  {
    ApplyKeepsInv(t, a);
    if |t.stamps| > |s.stamps| {
      StampsOnlyGrow(t, a);
    } else if a.CommitStamp? && a.sent && Accepted(t, a.who) {
      FirstStampIsWatched(s, t, a.who, a.heard);
    } else {
      OtherStepWaits(s, t, a);
    }
  }

  lemma StampsOnlyGrow(t: State, a: Action)
    requires t.log != []
    ensures t.stamps <= Apply(t, a).stamps
  {
  }

  lemma {:induction false} BreakingNeedsABehind(s: State, actions: seq<Action>)
    requires Inv(s) && s.stamps != [] && RespectfulRun(s, actions)
    ensures Watched(s, Run(s, actions))
  {
    if actions == [] {
    } else {
      var n := |actions| - 1;
      BreakingNeedsABehind(s, actions[..n]);
      StepIsWatched(s, Run(s, actions[..n]), actions[n]);
    }
  }

  // ---------- an annotation that is behind lets the limit break ----------

  predicate OwnStep(a: Action) {
    !a.OtherWrite? && !a.Recreate?
  }

  lemma {:induction false} OwnStepsAreRespectful(s: State, actions: seq<Action>)
    requires s.log != [] && forall a :: a in actions ==> OwnStep(a)
    ensures RespectfulRun(s, actions)
  {
    if actions == [] {
    } else {
      var n := |actions| - 1;
      assert forall a :: a in actions[..n] ==> a in actions;
      assert actions[n] in actions;
      OwnStepsAreRespectful(s, actions[..n]);
    }
  }

  lemma {:induction false} RespectfulConcat(s: State, xs: seq<Action>, ys: seq<Action>)
    requires s.log != [] && RespectfulRun(s, xs) && RespectfulRun(Run(s, xs), ys)
    ensures RespectfulRun(s, xs + ys)
  {
    if ys == [] {
      assert xs + ys == xs;
    } else {
      var n := |ys| - 1;
      assert (xs + ys)[..|xs + ys| - 1] == xs + ys[..n];
      RespectfulConcat(s, xs, ys[..n]);
      RunConcat(s, xs, ys[..n]);
    }
  }

  /** Nobody else is needed: once the annotation is due, one reconciler stamps. */
  lemma StampBehind(s: State, r: nat) returns (actions: seq<Action>)
    requires s.log != [] && s.stamps != [] && !Gone(Latest(s.log))
    requires IsDue(Latest(s.log).lastChecked, s.clock) && s.clock / SECOND < LastSecond(s) + DAY_IN_SECONDS
    ensures (forall a :: a in actions ==> OwnStep(a)) && TooSoon(s, Run(s, actions))
  {
    var w := Latest(s.log);
    var guard := [Load(r, |s.log| - 1, w.finalizers), CheckDue(r), PrepareStamp(r)];
    RunOfThree(s, guard[0], guard[1], guard[2]);
    UndisturbedGuard(s, r);
    actions := guard + [CommitStamp(r, true, true)];
    assert actions[..|actions| - 1] == guard;
    var t := Run(s, guard);
    assert StampedObject(t, ProcOf(t, r)) == w.(lastChecked := StampText(s.clock));
  }

  /** Time passes until the annotation, which is behind, is due; that is within the day of the last stamp. */
  lemma WaitAndStamp(s: State, r: nat) returns (actions: seq<Action>)
    requires s.log != [] && s.stamps != [] && !Gone(Latest(s.log))
    requires Behind(s) && s.clock / SECOND < LastSecond(s) + DAY_IN_SECONDS
    ensures RespectfulRun(s, actions) && TooSoon(s, Run(s, actions))
  {
    var due := LastInstant(Latest(s.log).lastChecked) + DAY;
    var tick := Tick(if s.clock < due then due - s.clock else 0);
    var rest := StampBehind(Apply(s, tick), r);
    RunCons(s, tick, rest);
    actions := [tick] + rest;
    OwnStepsAreRespectful(s, actions);
  }

  lemma BehindBreaks(s: State)
    requires Inv(s) && s.stamps != [] && Behind(s) && StillSoon(s)
    ensures CanBreak(s)
  {
    if r :| Pending(s, r) {
      PendingBreaks(s, r);
    } else if !Gone(Latest(s.log)) {
      var actions := WaitAndStamp(s, 0);
    } else {
      var recreate := Recreate(0, Latest(s.log).(deleting := false));
      var t := Apply(s, recreate);
      var rest := WaitAndStamp(t, 0);
      assert [recreate][..0] == [] && Run(s, []) == s && Run(s, [recreate]) == t;
      assert RespectfulRun(s, []) && Respectful(Run(s, [recreate][..0]), recreate);
      assert RespectfulRun(s, [recreate]);
      RespectfulConcat(s, [recreate], rest);
      RunConcat(s, [recreate], rest);
      assert TooSoon(s, Run(s, [recreate] + rest));
    }
  }

  lemma PendingBreaks(s: State, r: nat)
    requires Inv(s) && s.stamps != [] && Pending(s, r)
    ensures CanBreak(s)
  {
    var actions := [CommitStamp(r, true, true)];
    assert ProcOk(s, r, s.procs[r]);
    AcceptedStamp(s, r, true);
    assert actions[..0] == [] && Run(s, actions) == Apply(s, actions[0]);
    OwnStepsAreRespectful(s, actions);
    assert TooSoon(s, Run(s, actions));
  }
}
