/**
 The daily check as a protocol. Any number of reconcilers, each holding a copy that may be any past version of the
 resource, run their steps in any interleaving with one another and with everybody else who writes the resource, on a
 clock that never goes backwards. Every step is total, so a run is any sequence of actions.
 */
module DailyCheck {
  import opened Common
  import opened Clock
  import opened Resources

  /** 2024-01-01T00:00:00Z, used when the annotation is missing. */
  const DEFAULT_LAST_CHECK := 1704067200 * SECOND

  function LastInstant(lastChecked: Option<TimeText>): int {
    match lastChecked
    case None => DEFAULT_LAST_CHECK
    case Some(text) => Parse(text).GetOr(0)
  }

  predicate IsDue(lastChecked: Option<TimeText>, now: int) {
    !(Sub(now, LastInstant(lastChecked)) < DAY)
  }

  predicate InWindow(t: int) {
    10 <= HourOf(t) <= 20
  }

  /** Where a reconciler stands between two calls. `version` is the version its copy carries. */
  datatype Proc =
    | Idle
    | Holding(version: nat, copy: Resource)
    | Passed(version: nat, copy: Resource, checkedAt: int)             // the 24-hour guard let it through
    | Stamping(version: nat, copy: Resource, checkedAt: int, at: int)  // the new stamp is in the copy
    | Stamped(stamp: nat)
    | Open(stamp: nat, hourAt: int)                                    // the hour is one of those that notify
    | Notified(stamp: nat)
    | Planned(stamp: nat, next: int)
    | Returning(stamp: nat, delay: int)
    | Sleeping(stamp: nat, wake: int)

  datatype Stamp = Stamp(who: nat, version: nat, checkedAt: int, at: int, committedAt: int)

  datatype Notice = Notice(who: nat, stamp: nat, hourAt: int, at: int)

  datatype State = State(log: Log, clock: int, procs: map<nat, Proc>, stamps: seq<Stamp>, notices: seq<Notice>)

  function ProcOf(s: State, r: nat): Proc {
    if r in s.procs then s.procs[r] else Idle
  }

  datatype Action =
    | Tick(dt: nat)
    | OtherWrite(who: nat, version: nat, content: Resource)  // any update that is not a daily stamp
    | Recreate(who: nat, content: Resource)                  // only after the object is gone
    | Load(who: nat, version: nat, finalizers: seq<string>)  // a read, stale or not; finalizers may be edited locally
    | CheckDue(who: nat)
    | PrepareStamp(who: nat)
    | CommitStamp(who: nat, sent: bool, heard: bool)         // the request or its reply may be lost
    | CheckWindow(who: nat)
    | Notify(who: nat)
    | PlanNext(who: nat)
    | ComputeDelay(who: nat)
    | Return(who: nat)
    | GiveUp(who: nat)

  function With(s: State, r: nat, p: Proc): State {
    s.(procs := s.procs[r := p])
  }

  function StampText(at: int): Option<TimeText> {
    Some(Format(at))
  }

  /** The object a stamping reconciler sends, as the main endpoint takes it. */
  function StampedObject(s: State, p: Proc): Resource
    requires s.log != [] && p.Stamping?
  {
    MainOf(p.copy.(lastChecked := StampText(p.at)), Latest(s.log))
  }

  /** The steps that only read the clock; a step that is not next changes nothing. */
  function LocalStep(p: Proc, a: Action, now: int): Proc {
    match a
    case CheckDue(_) =>
      if !p.Holding? then p
      else if IsDue(p.copy.lastChecked, now) then Passed(p.version, p.copy, now) else Idle
    case PrepareStamp(_) =>
      if p.Passed? then Stamping(p.version, p.copy, p.checkedAt, now) else p
    case CheckWindow(_) =>
      if !p.Stamped? then p else if InWindow(now) then Open(p.stamp, now) else Idle
    case PlanNext(_) =>
      if p.Notified? then Planned(p.stamp, now + DAY) else p
    case ComputeDelay(_) =>
      if p.Planned? then Returning(p.stamp, Sub(p.next, now)) else p
    case Return(_) =>
      if p.Returning? then Sleeping(p.stamp, now + p.delay) else p
    case GiveUp(_) => Idle
    case _ => p
  }

  function Apply(s: State, a: Action): State
    requires s.log != []
  {
    match a
    case Tick(dt) => s.(clock := s.clock + dt)
    case OtherWrite(_, version, content) => s.(log := Write(s.log, version, content))
    case Recreate(_, content) => if Gone(Latest(s.log)) then s.(log := s.log + [content]) else s
    case Load(r, version, finalizers) =>
      if version < |s.log| then With(s, r, Holding(version, s.log[version].(finalizers := finalizers))) else s
    case CommitStamp(r, sent, heard) =>
      var p := ProcOf(s, r);
      if !p.Stamping? then s
      else if !sent || Judge(s.log, p.version, StampedObject(s, p)) != Stored then With(s, r, Idle)
      else
        With(s, r, if heard then Stamped(|s.stamps|) else Idle)
        .(log := Write(s.log, p.version, StampedObject(s, p)),
          stamps := s.stamps + [Stamp(r, |s.log|, p.checkedAt, p.at, s.clock)])
    case Notify(r) =>
      var p := ProcOf(s, r);
      if !p.Open? then s
      else With(s, r, Notified(p.stamp)).(notices := s.notices + [Notice(r, p.stamp, p.hourAt, s.clock)])
    case _ => With(s, a.who, LocalStep(ProcOf(s, a.who), a, s.clock))
  }

  ghost function Run(s: State, actions: seq<Action>): (t: State)
    requires s.log != []
    ensures t.log != []
  {
    if actions == [] then s
    else
      var n := |actions| - 1;
      var before := Run(s, actions[..n]);
      ApplyKeepsLog(before, actions[n]);
      Apply(before, actions[n])
  }

  /** The store only grows, and so does the clock. */
  lemma ApplyKeepsLog(s: State, a: Action)
    requires s.log != []
    ensures s.log <= Apply(s, a).log && s.clock <= Apply(s, a).clock
  {
  }

  lemma {:induction false} RunConcat(s: State, xs: seq<Action>, ys: seq<Action>)
    requires s.log != []
    ensures Run(s, xs + ys) == Run(Run(s, xs), ys)
  {
    if ys == [] {
      assert xs + ys == xs;
    } else {
      var n := |ys| - 1;
      assert (xs + ys)[..|xs + ys| - 1] == xs + ys[..n];
      RunConcat(s, xs, ys[..n]);
    }
  }

  // ---------- the invariant ----------

  /** A stored stamp: written over a version whose annotation was due when it was checked. */
  ghost predicate StampOk(s: State, e: Stamp) {
    && 0 < e.version < |s.log|
    && s.log[e.version].lastChecked == StampText(e.at)
    && IsDue(s.log[e.version - 1].lastChecked, e.checkedAt)
    && e.checkedAt <= e.at <= e.committedAt <= s.clock
  }

  ghost predicate StampsOk(s: State) {
    && (forall i :: 0 <= i < |s.stamps| ==> StampOk(s, s.stamps[i]))
    && (forall i, j :: 0 <= i < j < |s.stamps| ==>
          s.stamps[i].version < s.stamps[j].version && s.stamps[i].committedAt <= s.stamps[j].committedAt)
  }

  predicate HasStamp(p: Proc) {
    p.Stamped? || p.Open? || p.Notified? || p.Planned? || p.Returning? || p.Sleeping?
  }

  ghost predicate ProcOk(s: State, r: nat, p: Proc) {
    && (p.Holding? || p.Passed? || p.Stamping? ==>
          p.version < |s.log| && p.copy.lastChecked == s.log[p.version].lastChecked)
    && (p.Passed? || p.Stamping? ==> IsDue(p.copy.lastChecked, p.checkedAt) && p.checkedAt <= s.clock)
    && (p.Stamping? ==> p.checkedAt <= p.at <= s.clock)
    && (HasStamp(p) ==> p.stamp < |s.stamps| && s.stamps[p.stamp].who == r)
    && (p.Stamped? || p.Open? ==> forall n :: 0 <= n < |s.notices| ==> s.notices[n].stamp != p.stamp)
    && (p.Open? ==> InWindow(p.hourAt) && s.stamps[p.stamp].committedAt <= p.hourAt <= s.clock)
    && (p.Planned? ==> s.stamps[p.stamp].at + DAY <= p.next <= s.clock + DAY)
    && (p.Returning? ==> s.stamps[p.stamp].at + DAY <= s.clock + p.delay)
    && (p.Sleeping? ==> s.stamps[p.stamp].at + DAY <= p.wake)
  }

  ghost predicate ProcsOk(s: State) {
    forall r :: r in s.procs ==> ProcOk(s, r, s.procs[r])
  }

  /** Every notification attempt comes after a stamp of its own, stored by the same reconciler. */
  ghost predicate NoticesOk(s: State) {
    && (forall n :: 0 <= n < |s.notices| ==>
          && s.notices[n].stamp < |s.stamps|
          && s.stamps[s.notices[n].stamp].who == s.notices[n].who
          && s.stamps[s.notices[n].stamp].committedAt <= s.notices[n].hourAt <= s.notices[n].at <= s.clock
          && InWindow(s.notices[n].hourAt))
    && (forall n, m :: 0 <= n < m < |s.notices| ==> s.notices[n].stamp != s.notices[m].stamp)
  }

  ghost predicate Inv(s: State) {
    s.log != [] && StampsOk(s) && ProcsOk(s) && NoticesOk(s)
  }

  ghost predicate Initial(s: State) {
    s.log != [] && s.procs == map[] && s.stamps == [] && s.notices == []
  }

  /** The log and the clock may grow under an untouched set of records. */
  lemma GrowthKeepsInv(s: State, t: State)
    requires Inv(s)
    requires s.log <= t.log && s.clock <= t.clock
    requires t.procs == s.procs && t.stamps == s.stamps && t.notices == s.notices
    ensures Inv(t)
  {
    forall r | r in t.procs
      ensures ProcOk(t, r, t.procs[r])
    {
      assert ProcOk(s, r, s.procs[r]);
    }
    forall i | 0 <= i < |t.stamps|
      ensures StampOk(t, t.stamps[i])
    {
      assert StampOk(s, s.stamps[i]);
    }
  }

  /** A reconciler may move on to any position that is sound by itself. */
  lemma MoveKeepsInv(s: State, r: nat, p: Proc)
    requires Inv(s) && ProcOk(s, r, p)
    ensures Inv(With(s, r, p))
  {
    var t := With(s, r, p);
    forall q | q in t.procs
      ensures ProcOk(t, q, t.procs[q])
    {
      assert ProcOk(s, q, if q == r then p else s.procs[q]);
    }
    forall i | 0 <= i < |t.stamps|
      ensures StampOk(t, t.stamps[i])
    {
      assert StampOk(s, s.stamps[i]);
    }
  }

  lemma DueChanges(lastChecked: Option<TimeText>, checkedAt: int, at: int)
    requires IsDue(lastChecked, checkedAt) && checkedAt <= at
    ensures StampText(at) != lastChecked
    ensures LastInstant(lastChecked) + DAY <= LastInstant(StampText(at)) + SECOND
    ensures lastChecked.Some? && lastChecked.value.Second? ==> lastChecked.value.second + DAY_IN_SECONDS <= at / SECOND
  {
    FormatParse(at);
    if lastChecked.Some? && lastChecked.value.Second? {
      var s := lastChecked.value.second;
      assert at - s * SECOND >= DAY == DAY_IN_SECONDS * SECOND;
      assert at / SECOND >= s + DAY_IN_SECONDS;
    }
  }

  lemma CommitKeepsInv(s: State, r: nat, sent: bool, heard: bool)
    requires Inv(s)
    ensures Inv(Apply(s, CommitStamp(r, sent, heard)))
  {
    var p := ProcOf(s, r);
    if p.Stamping? {
      assert ProcOk(s, r, p);
      if !sent || Judge(s.log, p.version, StampedObject(s, p)) != Stored {
        MoveKeepsInv(s, r, Idle);
      } else {
        AcceptedStampKeepsInv(s, r, heard);
      }
    }
  }

  /** A stamp that the store accepts. */
  ghost predicate Accepted(s: State, r: nat) {
    && r in s.procs && s.procs[r].Stamping? && ProcOk(s, r, s.procs[r]) && s.log != []
    && Judge(s.log, s.procs[r].version, StampedObject(s, s.procs[r])) == Stored
  }

  /** An accepted stamp is a new version, and a new record of a version that was due. */
  lemma AcceptedStamp(s: State, r: nat, heard: bool)
    requires Accepted(s, r)
    ensures
      var p := s.procs[r];
      var t := Apply(s, CommitStamp(r, true, heard));
      && t.log == s.log + [StampedObject(s, p)]
      && t.stamps == s.stamps + [Stamp(r, |s.log|, p.checkedAt, p.at, s.clock)]
      && t.procs == s.procs[r := if heard then Stamped(|s.stamps|) else Idle]
      && t.clock == s.clock && t.notices == s.notices
      && StampOk(t, t.stamps[|s.stamps|])
  {
    DueChanges(s.procs[r].copy.lastChecked, s.procs[r].checkedAt, s.procs[r].at);
  }

  lemma AcceptedStampKeepsStamps(s: State, r: nat, heard: bool)
    requires Accepted(s, r) && StampsOk(s)
    ensures StampsOk(Apply(s, CommitStamp(r, true, heard)))
  {
    var t := Apply(s, CommitStamp(r, true, heard));
    AcceptedStamp(s, r, heard);
    forall i | 0 <= i < |t.stamps|
      ensures StampOk(t, t.stamps[i])
      ensures i < |s.stamps| ==> t.stamps[i] == s.stamps[i] && t.stamps[i].version < |s.log|
    {
      if i < |s.stamps| {
        assert StampOk(s, s.stamps[i]);
      }
    }
  }

  lemma AcceptedStampKeepsProcs(s: State, r: nat, heard: bool)
    requires Accepted(s, r) && ProcsOk(s) && NoticesOk(s)
    ensures ProcsOk(Apply(s, CommitStamp(r, true, heard)))
  {
    var t := Apply(s, CommitStamp(r, true, heard));
    AcceptedStamp(s, r, heard);
    forall q | q in t.procs
      ensures ProcOk(t, q, t.procs[q])
    {
      if q != r {
        assert ProcOk(s, q, s.procs[q]);
      }
    }
  }

  lemma AcceptedStampKeepsInv(s: State, r: nat, heard: bool)
    requires Accepted(s, r) && Inv(s)
    ensures Inv(Apply(s, CommitStamp(r, true, heard)))
  {
    AcceptedStamp(s, r, heard);
    AcceptedStampKeepsStamps(s, r, heard);
    AcceptedStampKeepsProcs(s, r, heard);
  }

  lemma NotifyKeepsInv(s: State, r: nat)
    requires Inv(s)
    ensures Inv(Apply(s, Notify(r)))
  {
    var p := ProcOf(s, r);
    if p.Open? {
      assert ProcOk(s, r, p);
      var t := Apply(s, Notify(r));
      forall q | q in t.procs
        ensures ProcOk(t, q, t.procs[q])
      {
        if q != r {
          assert ProcOk(s, q, s.procs[q]);
        }
      }
      forall i | 0 <= i < |t.stamps|
        ensures StampOk(t, t.stamps[i])
      {
        assert StampOk(s, s.stamps[i]);
      }
    }
  }

  lemma ApplyKeepsInv(s: State, a: Action)
    requires Inv(s)
    ensures Inv(Apply(s, a))
  {
    match a
    case Tick(_) => GrowthKeepsInv(s, Apply(s, a));
    case OtherWrite(_, _, _) => GrowthKeepsInv(s, Apply(s, a));
    case Recreate(_, _) => GrowthKeepsInv(s, Apply(s, a));
    case Load(r, version, finalizers) =>
      if version < |s.log| {
        MoveKeepsInv(s, r, Holding(version, s.log[version].(finalizers := finalizers)));
      }
    case CommitStamp(r, sent, heard) => CommitKeepsInv(s, r, sent, heard);
    case Notify(r) => NotifyKeepsInv(s, r);
    case _ =>
      assert ProcOk(s, a.who, ProcOf(s, a.who));
      LocalStepIsOk(s, a.who, ProcOf(s, a.who), a);
      MoveKeepsInv(s, a.who, LocalStep(ProcOf(s, a.who), a, s.clock));
  }

  lemma LocalStepIsOk(s: State, r: nat, p: Proc, a: Action)
    requires Inv(s) && ProcOk(s, r, p)
    ensures ProcOk(s, r, LocalStep(p, a, s.clock))
  {
    if HasStamp(p) {
      assert StampOk(s, s.stamps[p.stamp]);
    }
  }

  /** The invariant holds after every run. */
  lemma {:induction false} RunKeepsInv(s: State, actions: seq<Action>)
    requires Inv(s)
    ensures Inv(Run(s, actions))
  {
    if actions == [] {
    } else {
      var n := |actions| - 1;
      RunKeepsInv(s, actions[..n]);
      ApplyKeepsInv(Run(s, actions[..n]), actions[n]);
    }
  }

  // ---------- what follows for stamps and notifications ----------

  /** Between these versions nobody but a stamping reconciler changed the annotation. */
  ghost predicate OnlyStamped(s: State, from: nat, to: nat) {
    forall v :: from < v <= to && v < |s.log| ==>
      IsStampVersion(s, v) || s.log[v].lastChecked == s.log[v - 1].lastChecked
  }

  ghost predicate IsStampVersion(s: State, v: int) {
    exists i :: 0 <= i < |s.stamps| && s.stamps[i].version == v
  }

  /** From one stamp to just before the next, the annotation is the one the first stamp stored. */
  lemma {:induction false} AnnotationPersists(s: State, i: nat, v: nat)
    requires StampsOk(s) && i < |s.stamps|
    requires s.stamps[i].version <= v < |s.log|
    requires i + 1 < |s.stamps| ==> v < s.stamps[i + 1].version
    requires OnlyStamped(s, s.stamps[i].version, v)
    ensures s.log[v].lastChecked == StampText(s.stamps[i].at)
    decreases v
  {
    assert StampOk(s, s.stamps[i]);
    if v > s.stamps[i].version {
      AnnotationPersists(s, i, v - 1);
      BetweenStamps(s, i, v);
    }
  }

  /** An annotation no earlier than a stamp is not due again until a day after it, in whole seconds. */
  lemma DueIsADayLater(lastChecked: Option<TimeText>, stampedAt: int, checkedAt: int, at: int)
    requires IsDue(lastChecked, checkedAt) && checkedAt <= at
    requires LastInstant(lastChecked) >= LastInstant(StampText(stampedAt))
    ensures at / SECOND >= stampedAt / SECOND + DAY_IN_SECONDS
  {
    assert at - (stampedAt / SECOND) * SECOND >= DAY == DAY_IN_SECONDS * SECOND;
  }

  /** What stamp `k + 1` found due was no earlier than stamp `k`. */
  ghost predicate FoundNotEarlier(s: State, k: nat)
    requires StampsOk(s) && k + 1 < |s.stamps|
  {
    StampOk(s, s.stamps[k + 1]) &&
    LastInstant(s.log[s.stamps[k + 1].version - 1].lastChecked) >= LastInstant(StampText(s.stamps[k].at))
  }

  lemma NextStampIsADayLater(s: State, i: nat)
    requires StampsOk(s) && i + 1 < |s.stamps| && FoundNotEarlier(s, i)
    ensures s.stamps[i + 1].at / SECOND >= s.stamps[i].at / SECOND + DAY_IN_SECONDS
  {
    var e := s.stamps[i + 1];
    DueIsADayLater(s.log[e.version - 1].lastChecked, s.stamps[i].at, e.checkedAt, e.at);
  }

  function StoredSecond(e: Stamp): int {
    e.at / SECOND
  }

  ghost predicate DaySteps(stamps: seq<Stamp>, i: nat, j: nat)
    requires j < |stamps|
  {
    forall k :: i <= k < j ==> StoredSecond(stamps[k + 1]) >= StoredSecond(stamps[k]) + DAY_IN_SECONDS
  }

  lemma {:induction false} DaysAddUp(stamps: seq<Stamp>, i: nat, j: nat)
    requires i <= j < |stamps| && DaySteps(stamps, i, j)
    ensures StoredSecond(stamps[j]) - StoredSecond(stamps[i]) >= (j - i) * DAY_IN_SECONDS
    decreases j
  {
    if i < j {
      DaysAddUp(stamps, i, j - 1);
      assert StoredSecond(stamps[j - 1 + 1]) >= StoredSecond(stamps[j - 1]) + DAY_IN_SECONDS;
    }
  }

  /** Stored stamps are whole days apart, in seconds, as long as the annotation never falls behind them. */
  lemma StampsAreDaysApart(s: State, i: nat, j: nat)
    requires StampsOk(s) && i <= j < |s.stamps|
    requires forall k :: i <= k < j ==> FoundNotEarlier(s, k)
    ensures s.stamps[j].at / SECOND - s.stamps[i].at / SECOND >= (j - i) * DAY_IN_SECONDS
  {
    forall k | i <= k < j
      ensures StoredSecond(s.stamps[k + 1]) >= StoredSecond(s.stamps[k]) + DAY_IN_SECONDS
    {
      NextStampIsADayLater(s, k);
    }
    DaysAddUp(s.stamps, i, j);
  }

  lemma Truncation(a: int, b: int, n: nat)
    requires b / SECOND - a / SECOND >= n * DAY_IN_SECONDS
    ensures b - a > n * DAY - SECOND
  {
    assert a < (a / SECOND) * SECOND + SECOND && (b / SECOND) * SECOND <= b;
    assert n * DAY_IN_SECONDS * SECOND == n * DAY;
  }

  /** The last stamp, if any, is not ahead of this annotation. */
  predicate NotEarlier(s: State, lastChecked: Option<TimeText>) {
    s.stamps == [] || LastInstant(lastChecked) >= LastInstant(StampText(s.stamps[|s.stamps| - 1].at))
  }

  /**
   A content that leaves the annotation as it is, or no earlier than the last stamp; anything before the first stamp.
  */
  predicate Harmless(s: State, content: Resource)
    requires s.log != []
  {
    content.lastChecked == Latest(s.log).lastChecked || NotEarlier(s, content.lastChecked)
  }

  /** Whatever is accepted besides stamps is harmless, and so is a new object after a removal. */
  predicate Respectful(s: State, a: Action)
    requires s.log != []
  {
    && (a.OtherWrite? && Judge(s.log, a.version, a.content) == Stored ==> Harmless(s, a.content))
    && (a.Recreate? && Gone(Latest(s.log)) ==> Harmless(s, a.content))
  }

  ghost predicate RespectfulRun(s: State, actions: seq<Action>)
    requires s.log != []
  {
    actions == [] ||
    (var n := |actions| - 1;
     RespectfulRun(s, actions[..n]) && Respectful(Run(s, actions[..n]), actions[n]))
  }

  /** All is sound, the annotation is not behind the last stamp, and the stamps so far are days apart. */
  ghost predicate HeldBack(s: State) {
    && Inv(s) && NotEarlier(s, Latest(s.log).lastChecked)
    && (s.stamps != [] ==> DaySteps(s.stamps, 0, |s.stamps| - 1))
  }

  lemma AcceptedStampHoldsBack(s: State, r: nat, heard: bool)
    requires HeldBack(s) && Accepted(s, r)
    ensures HeldBack(Apply(s, CommitStamp(r, true, heard)))
  {
    var p := s.procs[r];
    var t := Apply(s, CommitStamp(r, true, heard));
    AcceptedStamp(s, r, heard);
    AcceptedStampKeepsInv(s, r, heard);
    if s.stamps != [] {
      var last := |s.stamps| - 1;
      DueIsADayLater(p.copy.lastChecked, s.stamps[last].at, p.checkedAt, p.at);
      forall k | 0 <= k < last + 1
        ensures StoredSecond(t.stamps[k + 1]) >= StoredSecond(t.stamps[k]) + DAY_IN_SECONDS
      {
        assert k < last ==> StoredSecond(s.stamps[k + 1]) >= StoredSecond(s.stamps[k]) + DAY_IN_SECONDS;
      }
    }
  }

  /** Which actions leave the stamps alone, and that a harmless one does not set the annotation back. */
  lemma OtherStepHoldsBack(s: State, a: Action)
    requires Inv(s) && Respectful(s, a)
    requires a.CommitStamp? ==> !(a.sent && Accepted(s, a.who))
    ensures Apply(s, a).stamps == s.stamps
    ensures NotEarlier(s, Latest(s.log).lastChecked) ==> NotEarlier(s, Latest(Apply(s, a).log).lastChecked)
  {
    if a.CommitStamp? && ProcOf(s, a.who).Stamping? {
      assert ProcOk(s, a.who, s.procs[a.who]);
    }
  }

  lemma StepHoldsBack(s: State, a: Action)
    requires HeldBack(s) && Respectful(s, a)
    ensures HeldBack(Apply(s, a))
  {
    if a.CommitStamp? && a.sent && Accepted(s, a.who) {
      AcceptedStampHoldsBack(s, a.who, a.heard);
    } else {
      ApplyKeepsInv(s, a);
      OtherStepHoldsBack(s, a);
    }
  }

  lemma {:induction false} RunHoldsBack(s: State, actions: seq<Action>)
    requires HeldBack(s) && RespectfulRun(s, actions)
    ensures HeldBack(Run(s, actions))
  {
    if actions == [] {
    } else {
      var n := |actions| - 1;
      RunHoldsBack(s, actions[..n]);
      StepHoldsBack(Run(s, actions[..n]), actions[n]);
    }
  }

  lemma {:induction false} RunGrows(s: State, actions: seq<Action>)
    requires s.log != []
    ensures s.log <= Run(s, actions).log && s.clock <= Run(s, actions).clock
  {
    if actions == [] {
    } else {
      var n := |actions| - 1;
      RunGrows(s, actions[..n]);
      ApplyKeepsLog(Run(s, actions[..n]), actions[n]);
    }
  }

  /**
   The rate limit. In any run in which nothing else sets the annotation back behind the last stamp: any two stamps i
   <= j are at least (j - i) days apart as stored, and more than (j - i) days less one second apart on the clock; and
   of N notification attempts made so far, the time since the first stamp exceeds N - 1 days less one second.
  */
  lemma RateLimit(s: State, actions: seq<Action>)
    requires Initial(s) && RespectfulRun(s, actions)
    ensures Spaced(Run(s, actions))
  {
    RunHoldsBack(s, actions);
    HeldBackIsSpaced(Run(s, actions));
  }

  /**
   As many days apart as stored as there are stamps between them, and less than a second short of that on the clock.
  */
  predicate StampsSpaced(stamps: seq<Stamp>, i: nat, j: nat)
    requires i <= j < |stamps|
  {
    && stamps[j].at / SECOND - stamps[i].at / SECOND >= (j - i) * DAY_IN_SECONDS
    && stamps[j].at - stamps[i].at > (j - i) * DAY - SECOND
  }

  ghost predicate Spaced(s: State) {
    && (forall i, j :: 0 <= i <= j < |s.stamps| ==> StampsSpaced(s.stamps, i, j))
    && |s.notices| <= |s.stamps|
    && (s.notices != [] ==> s.clock - s.stamps[0].at > (|s.notices| - 1) * DAY - SECOND)
  }

  lemma HeldBackIsSpaced(s: State)
    requires HeldBack(s)
    ensures Spaced(s)
  {
    forall i, j | 0 <= i <= j < |s.stamps|
      ensures StampsSpaced(s.stamps, i, j)
    {
      PairIsSpaced(s.stamps, i, j);
    }
    NoticesFitStamps(s);
    if s.notices != [] {
      NoticesAreSpaced(s);
    }
  }

  lemma PairIsSpaced(stamps: seq<Stamp>, i: nat, j: nat)
    requires i <= j < |stamps| && DaySteps(stamps, 0, |stamps| - 1)
    ensures StampsSpaced(stamps, i, j)
  {
    DaysAddUp(stamps, i, j);
    Truncation(stamps[i].at, stamps[j].at, j - i);
  }

  /** The attempts made so far take at least as long as as many stamps. */
  lemma NoticesAreSpaced(s: State)
    requires StampsOk(s) && s.notices != [] && |s.notices| <= |s.stamps|
    requires StampsSpaced(s.stamps, 0, |s.stamps| - 1)
    ensures s.clock - s.stamps[0].at > (|s.notices| - 1) * DAY - SECOND
  {
    assert StampOk(s, s.stamps[|s.stamps| - 1]);
    MoreDays(|s.notices| - 1, |s.stamps| - 1);
  }

  lemma MoreDays(m: int, n: int)
    requires m <= n
    ensures m * DAY <= n * DAY
  {
  }

  /** Distinct stamps for distinct notifications: there are never more attempts than stamps. */
  lemma NoticesFitStamps(s: State)
    requires NoticesOk(s)
    ensures |s.notices| <= |s.stamps|
  {
    var used := seq(|s.notices|, n requires 0 <= n < |s.notices| => s.notices[n].stamp);
    forall x | x in used
      ensures x in Below(|s.stamps|)
    {
      var n :| 0 <= n < |used| && used[n] == x;
    }
    DistinctFits(used, Below(|s.stamps|));
  }

  /**
   With any writers at all: a stamp less than a day after its predecessor means that somebody else, in between, set the
   annotation back.
   */
  lemma CloseStampsNeedAForeignWrite(s: State, actions: seq<Action>, i: nat)
    requires Initial(s)
    requires i + 1 < |Run(s, actions).stamps|
    requires Run(s, actions).stamps[i + 1].at / SECOND - Run(s, actions).stamps[i].at / SECOND < DAY_IN_SECONDS
    ensures SetBackBetween(Run(s, actions), Run(s, actions).stamps[i].version, Run(s, actions).stamps[i + 1].version)
  {
    RunKeepsInv(s, actions);
    CloseStamps(Run(s, actions), i);
  }

  /** A version that is no stamp has an earlier annotation than the one before it. */
  ghost predicate SetBackBetween(s: State, from: nat, to: nat) {
    exists v :: from < v < to && v < |s.log| && !IsStampVersion(s, v) &&
      LastInstant(s.log[v].lastChecked) < LastInstant(s.log[v - 1].lastChecked)
  }

  lemma CloseStamps(s: State, i: nat)
    requires StampsOk(s) && i + 1 < |s.stamps|
    requires s.stamps[i + 1].at / SECOND - s.stamps[i].at / SECOND < DAY_IN_SECONDS
    ensures SetBackBetween(s, s.stamps[i].version, s.stamps[i + 1].version)
  {
    var e := s.stamps[i + 1];
    assert StampOk(s, s.stamps[i]) && StampOk(s, e);
    if LastInstant(s.log[e.version - 1].lastChecked) >= LastInstant(StampText(s.stamps[i].at)) {
      NextStampIsADayLater(s, i);
    } else {
      SetBackSomewhere(s, i, e.version - 1);
    }
  }

  /** A version before the next stamp with an annotation earlier than the stamp: some version up to it set it back. */
  lemma {:induction false} SetBackSomewhere(s: State, i: nat, v: nat)
    requires StampsOk(s) && i + 1 < |s.stamps|
    requires s.stamps[i].version <= v < s.stamps[i + 1].version && v < |s.log|
    requires LastInstant(s.log[v].lastChecked) < LastInstant(StampText(s.stamps[i].at))
    ensures SetBackBetween(s, s.stamps[i].version, s.stamps[i + 1].version)
    decreases v
  {
    assert StampOk(s, s.stamps[i]);
    assert v > s.stamps[i].version;
    BetweenStamps(s, i, v);
    if LastInstant(s.log[v - 1].lastChecked) < LastInstant(StampText(s.stamps[i].at)) {
      SetBackSomewhere(s, i, v - 1);
    }
  }

  lemma BetweenStamps(s: State, i: nat, v: nat)
    requires StampsOk(s) && i < |s.stamps| && s.stamps[i].version < v
    requires i + 1 < |s.stamps| ==> v < s.stamps[i + 1].version
    ensures !IsStampVersion(s, v)
  {
    forall j | 0 <= j < |s.stamps|
      ensures s.stamps[j].version != v
    {
      if i + 1 < j {
        assert s.stamps[i + 1].version < s.stamps[j].version;
      } else if j < i {
        assert s.stamps[j].version < s.stamps[i].version;
      }
    }
  }

  /** A wake-up planned after a completed check always finds the guard open again, measured against the stamp stored. */
  lemma WakeIsNeverEarly(s: State, r: nat, now: int)
    requires Inv(s)
    requires ProcOf(s, r).Sleeping? && now >= ProcOf(s, r).wake
    ensures
      var e := s.stamps[ProcOf(s, r).stamp];
      e.who == r && s.log[e.version].lastChecked == StampText(e.at) && IsDue(StampText(e.at), now)
  {
    var p := ProcOf(s, r);
    assert ProcOk(s, r, p);
    assert StampOk(s, s.stamps[p.stamp]);
    FormatParse(s.stamps[p.stamp].at);
  }

  // ---------- the log ----------

  /** Every version follows legally from the one before, or starts the object anew after its removal. */
  ghost predicate LegalLog(log: Log) {
    forall v :: 0 < v < |log| ==> Gone(log[v - 1]) || Legal(log[v - 1], log[v])
  }

  lemma ApplyKeepsLegalLog(s: State, a: Action)
    requires s.log != [] && LegalLog(s.log)
    ensures LegalLog(Apply(s, a).log)
  {
  }

  lemma {:induction false} RunKeepsLegalLog(s: State, actions: seq<Action>)
    requires s.log != [] && LegalLog(s.log)
    ensures LegalLog(Run(s, actions).log)
  {
    if actions == [] {
    } else {
      var n := |actions| - 1;
      RunKeepsLegalLog(s, actions[..n]);
      ApplyKeepsLegalLog(Run(s, actions[..n]), actions[n]);
    }
  }

  /** The object is not removed between these versions. */
  ghost predicate SameLife(log: Log, from: nat, to: nat) {
    forall v :: from <= v < to && v < |log| ==> !Gone(log[v])
  }

  /** Once marked for deletion, an object stays marked and gains no finalizer for the rest of its life. */
  lemma {:induction false} DeletionIsFinal(log: Log, u: nat, v: nat)
    requires LegalLog(log) && u <= v < |log| && SameLife(log, u, v)
    requires log[u].deleting
    ensures log[v].deleting
    ensures forall f :: f in log[v].finalizers ==> f in log[u].finalizers
    decreases v
  {
    if u < v {
      DeletionIsFinal(log, u, v - 1);
    }
  }

  // ---------- an undisturbed check ----------

  function CheckActions(r: nat, version: nat, finalizers: seq<string>): seq<Action> {
    [Load(r, version, finalizers), CheckDue(r), PrepareStamp(r), CommitStamp(r, true, true), CheckWindow(r), Notify(r)]
  }

  lemma {:induction false} RunCons(s: State, a: Action, rest: seq<Action>)
    requires s.log != []
    ensures Apply(s, a).log != []
    ensures Run(s, [a] + rest) == Run(Apply(s, a), rest)
  {
    ApplyKeepsLog(s, a);
    assert [a][..0] == [];
    assert Run(s, [a]) == Apply(s, a);
    RunConcat(s, [a], rest);
  }

  function Three(s: State, a: Action, b: Action, c: Action): (t: State)
    requires s.log != []
    ensures t.log != []
  {
    ApplyKeepsLog(s, a);
    ApplyKeepsLog(Apply(s, a), b);
    ApplyKeepsLog(Apply(Apply(s, a), b), c);
    Apply(Apply(Apply(s, a), b), c)
  }

  lemma RunOfThree(s: State, a: Action, b: Action, c: Action)
    requires s.log != []
    ensures Run(s, [a, b, c]) == Three(s, a, b, c)
  {
    assert [a, b, c] == [a] + ([b] + ([c] + []));
    RunCons(s, a, [b] + ([c] + []));
    RunCons(Apply(s, a), b, [c] + []);
    RunCons(Apply(Apply(s, a), b), c, []);
  }

  ghost predicate SameButProcs(s: State, t: State) {
    t.log == s.log && t.clock == s.clock && t.stamps == s.stamps && t.notices == s.notices
  }

  lemma UndisturbedGuard(s: State, r: nat)
    requires s.log != [] && IsDue(Latest(s.log).lastChecked, s.clock)
    ensures
      var w := Latest(s.log);
      var t := Three(s, Load(r, |s.log| - 1, w.finalizers), CheckDue(r), PrepareStamp(r));
      SameButProcs(s, t) && ProcOf(t, r) == Stamping(|s.log| - 1, w, s.clock, s.clock)
  {
    assert Latest(s.log).(finalizers := Latest(s.log).finalizers) == Latest(s.log);
  }

  lemma UndisturbedStamp(s: State, r: nat, w: Resource)
    requires s.log != [] && Latest(s.log) == w && !Gone(w)
    requires ProcOf(s, r) == Stamping(|s.log| - 1, w, s.clock, s.clock)
    requires IsDue(w.lastChecked, s.clock) && InWindow(s.clock)
    ensures
      var t := Three(s, CommitStamp(r, true, true), CheckWindow(r), Notify(r));
      && t.clock == s.clock
      && t.log == s.log + [w.(lastChecked := StampText(s.clock))]
      && t.stamps == s.stamps + [Stamp(r, |s.log|, s.clock, s.clock, s.clock)]
      && t.notices == s.notices + [Notice(r, |s.stamps|, s.clock, s.clock)]
  {
    DueChanges(w.lastChecked, s.clock, s.clock);
    assert StampedObject(s, ProcOf(s, r)) == w.(lastChecked := StampText(s.clock));
  }

  /** A due check inside the window that nobody disturbs stamps and notifies, all at one instant. */
  lemma UndisturbedCheck(s: State, r: nat)
    requires s.log != [] && !Gone(Latest(s.log))
    requires IsDue(Latest(s.log).lastChecked, s.clock) && InWindow(s.clock)
    ensures
      var t := Run(s, CheckActions(r, |s.log| - 1, Latest(s.log).finalizers));
      && t.clock == s.clock
      && t.log == s.log + [Latest(s.log).(lastChecked := StampText(s.clock))]
      && t.stamps == s.stamps + [Stamp(r, |s.log|, s.clock, s.clock, s.clock)]
      && t.notices == s.notices + [Notice(r, |s.stamps|, s.clock, s.clock)]
  {
    var w := Latest(s.log);
    var guard := [Load(r, |s.log| - 1, w.finalizers), CheckDue(r), PrepareStamp(r)];
    var stamp := [CommitStamp(r, true, true), CheckWindow(r), Notify(r)];
    RunOfThree(s, guard[0], guard[1], guard[2]);
    UndisturbedGuard(s, r);
    RunOfThree(Run(s, guard), stamp[0], stamp[1], stamp[2]);
    UndisturbedStamp(Run(s, guard), r, w);
    RunConcat(s, guard, stamp);
    assert CheckActions(r, |s.log| - 1, w.finalizers) == guard + stamp;
  }

  /**
   The limit rests on nobody else writing the annotation: one foreign write that puts the unstamped object back, and a
   second reconciler stamps and notifies at the very same instant.
   */
  lemma ForeignWriteDefeatsTheLimit(s: State, r: nat, q: nat, w: Resource)
    requires Initial(s) && s.log == [w] && !Gone(w) && !w.deleting
    requires IsDue(w.lastChecked, s.clock) && InWindow(s.clock)
    ensures
      var actions := CheckActions(r, 0, w.finalizers) + [OtherWrite(q, 1, w)] + CheckActions(q, 2, w.finalizers);
      var t := Run(s, actions);
      |t.stamps| == |t.notices| == 2 && t.stamps[0].at == t.stamps[1].at && t.notices[0].at == t.notices[1].at
  {
    var first, second := CheckActions(r, 0, w.finalizers), CheckActions(q, 2, w.finalizers);
    UndisturbedCheck(s, r);
    var s1 := Run(s, first);
    DueChanges(w.lastChecked, s.clock, s.clock);
    var s2 := Apply(s1, OtherWrite(q, 1, w));
    assert s2.log == s1.log + [w];
    UndisturbedCheck(s2, q);
    RunConcat(s, first, [OtherWrite(q, 1, w)] + second);
    RunCons(s1, OtherWrite(q, 1, w), second);
    assert first + [OtherWrite(q, 1, w)] + second == first + ([OtherWrite(q, 1, w)] + second);
  }

  // ---------- the constants, said another way ----------

  /** Days from the beginning of 1970 to the beginning of a year. */
  function YearStart(year: int): int {
    365 * (year - 1970) + LeapYearsBefore(year) - LeapYearsBefore(1970)
  }

  function LeapYearsBefore(year: int): int {
    (year - 1) / 4 - (year - 1) / 100 + (year - 1) / 400
  }

  lemma OneMoreQuotient(year: int)
    ensures year / 4 - (year - 1) / 4 == if year % 4 == 0 then 1 else 0
    ensures year / 100 - (year - 1) / 100 == if year % 100 == 0 then 1 else 0
    ensures year / 400 - (year - 1) / 400 == if year % 400 == 0 then 1 else 0
  {
  }

  lemma Fours(q: int)
    ensures (4 * q) % 4 == 0
  {
  }

  lemma Hundreds(q: int)
    ensures (100 * q) % 100 == 0
  {
  }

  lemma Centuries(year: int)
    ensures year % 400 == 0 ==> year % 100 == 0
    ensures year % 100 == 0 ==> year % 4 == 0
  {
    var q, p := year / 400, year / 100;
    Hundreds(4 * q);
    Fours(25 * p);
    assert year % 400 == 0 ==> year == 100 * (4 * q);
    assert year % 100 == 0 ==> year == 4 * (25 * p);
  }

  /** The Gregorian calendar: each year begins 365 days after the one before, or 366 after a leap year. */
  lemma YearsFollow(year: int)
    ensures YearStart(1970) == 0
    ensures YearStart(year + 1) - YearStart(year)
         == if year % 4 == 0 && (year % 100 != 0 || year % 400 == 0) then 366 else 365
  {
    OneMoreQuotient(year);
    Centuries(year);
  }

  /** A missing annotation stands for the beginning of 2024, an unreadable one for that of 1970. */
  lemma DefaultInstants()
    ensures LastInstant(None) == YearStart(2024) * DAY
    ensures LastInstant(Some(Unreadable)) == YearStart(1970) * DAY
  {
  }

  /** Due means that a whole day has passed: the 64-bit difference never matters. */
  lemma DueExactly(lastChecked: Option<TimeText>, now: int)
    ensures IsDue(lastChecked, now) <==> now >= LastInstant(lastChecked) + DAY
  {
  }

  /** The hours that notify: from ten in the morning to nine in the evening of some day. */
  lemma WindowExactly(t: int)
    ensures InWindow(t) <==> exists day: int :: day * DAY + 10 * HOUR <= t < day * DAY + 21 * HOUR
  {
    assert t == (t / DAY) * DAY + t % DAY;
    HourOfDay(t);
    if InWindow(t) {
      assert (t / DAY) * DAY + 10 * HOUR <= t < (t / DAY) * DAY + 21 * HOUR;
    }
    if day: int :| day * DAY + 10 * HOUR <= t < day * DAY + 21 * HOUR {
      assert t / DAY == day;
    }
  }

  lemma HourOfDay(t: int)
    ensures HourOf(t) == (t % DAY) / HOUR
  {
    assert t / HOUR == 24 * (t / DAY) + (t % DAY) / HOUR;
  }
}
