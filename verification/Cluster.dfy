/**
 One reconciler's calls to the API server, in the middle of everybody else's. A script, over which every contract
 quantifies, says before each call what the others do, how old the version is that a read returns, and whether the
 call fails. The history of effective actions ties the state to a run of the protocol.
 */
module Cluster {
  import opened Clock
  import opened Resources
  import opened DailyCheck
  import R = Report

  /** The number of attempts of the default retry. */
  const ATTEMPTS := 5

  datatype Turn = Turn(others: seq<Action>, lag: nat, broken: bool, lost: bool)

  const QUIET := Turn([], 0, false, false)

  /** Time passes; nobody writes, nothing fails, and the read is fresh. */
  predicate IsQuiet(t: Turn) {
    !t.broken && !t.lost && t.lag == 0 && forall a :: a in t.others ==> a.Tick?
  }

  /** The call is answered, on fresh data, whatever the others do before it. */
  predicate Answers(t: Turn) {
    !t.broken && !t.lost && t.lag == 0
  }

  /** Nothing but time passes before the call. */
  predicate Still(t: Turn) {
    forall a :: a in t.others ==> a.Tick?
  }

  function TurnAt(script: seq<Turn>, i: nat): Turn {
    if i < |script| then script[i] else QUIET
  }

  /** What is left of a script after `n` calls. */
  function Rest(script: seq<Turn>, n: nat): seq<Turn> {
    if n <= |script| then script[n..] else []
  }

  lemma RestOfRest(script: seq<Turn>, m: nat, n: nat)
    ensures Rest(Rest(script, m), n) == Rest(script, m + n)
    ensures forall i: nat :: TurnAt(Rest(script, m), i) == TurnAt(script, m + i)
  {
  }

  /** All calls of five attempts are answered. */
  predicate AllAnswer(script: seq<Turn>, calls: nat) {
    forall i: nat :: i < calls ==> Answers(TurnAt(script, i))
  }

  /** In this attempt, of so many calls, nobody interferes after the first. */
  predicate Clear(script: seq<Turn>, width: nat, attempt: nat) {
    forall i: nat :: width * attempt < i < width * (attempt + 1) ==> Still(TurnAt(script, i))
  }

  /** Every call is answered, and one of the attempts is left alone. */
  predicate Favourable(script: seq<Turn>, width: nat) {
    AllAnswer(script, width * ATTEMPTS) && exists attempt: nat :: attempt < ATTEMPTS && Clear(script, width, attempt)
  }

  /** The object has been removed in the meantime, if only for a while. */
  ghost predicate RemovedSince(before: Log, log: Log) {
    exists v: nat :: |before| - 1 <= v < |log| && Gone(log[v])
  }

  /** How one attempt of so many calls ends when they are answered: well, or in a conflict unless it is left alone. */
  ghost predicate Tries(turns: seq<Turn>, width: nat, r: WriteResult, before: Log, after: Log) {
    AllAnswer(turns, width) ==>
      || r == Answered(Stored) || RemovedSince(before, after)
      || (r == Answered(Conflict) && !Clear(turns, width, 0))
  }

  lemma CallByCall(turns: seq<Turn>)
    ensures AllAnswer(turns, 2) ==> Answers(TurnAt(turns, 0)) && Answers(TurnAt(turns, 1))
    ensures AllAnswer(turns, 3) ==> AllAnswer(turns, 2) && Answers(TurnAt(turns, 2))
    ensures Clear(turns, 2, 0) <==> Still(TurnAt(turns, 1))
    ensures Clear(turns, 3, 0) <==> Still(TurnAt(turns, 1)) && Still(TurnAt(turns, 2))
  {
  }

  /** So many attempts have ended in conflicts, none of them left alone. */
  ghost predicate TriedInVain(script: seq<Turn>, width: nat, attempts: nat, before: Log, after: Log) {
    AllAnswer(script, width * ATTEMPTS) ==>
      RemovedSince(before, after) || forall k: nat :: k < attempts ==> !Clear(script, width, k)
  }

  lemma CallsOfAttempt(width: nat, attempt: nat)
    requires (width == 2 || width == 3) && attempt < ATTEMPTS
    ensures width * (attempt + 1) == width * attempt + width <= width * ATTEMPTS
  {
    if width == 2 {
      assert 2 * (attempt + 1) <= 2 * ATTEMPTS;
    } else {
      assert 3 * (attempt + 1) <= 3 * ATTEMPTS;
    }
  }

  lemma AnswersFrom(script: seq<Turn>, from: nat, calls: nat, total: nat)
    requires from + calls <= total && AllAnswer(script, total)
    ensures AllAnswer(Rest(script, from), calls)
  {
    RestOfRest(script, from, 0);
    forall i: nat | i < calls
      ensures Answers(TurnAt(Rest(script, from), i))
    {
      assert TurnAt(Rest(script, from), i) == TurnAt(script, from + i);
    }
  }

  lemma NextAnswers(script: seq<Turn>, n: nat, total: nat)
    requires n < total
    ensures AllAnswer(script, total) ==> Answers(TurnAt(Rest(script, n), 0))
    ensures Rest(Rest(script, n), 1) == Rest(script, n + 1)
  {
    RestOfRest(script, n, 1);
    assert TurnAt(Rest(script, n), 0) == TurnAt(script, n);
  }

  lemma AttemptsAnswer(script: seq<Turn>, width: nat, attempt: nat)
    requires (width == 2 || width == 3) && attempt < ATTEMPTS
    ensures AllAnswer(script, width * ATTEMPTS) ==> AllAnswer(Rest(script, width * attempt), width)
    ensures Clear(script, width, attempt) ==> Clear(Rest(script, width * attempt), width, 0)
  {
    var from := width * attempt;
    CallsOfAttempt(width, attempt);
    if AllAnswer(script, width * ATTEMPTS) {
      AnswersFrom(script, from, width, width * ATTEMPTS);
    }
    if Clear(script, width, attempt) {
      RestOfRest(script, from, 0);
      forall i: nat | width * 0 < i < width * (0 + 1)
        ensures Still(TurnAt(Rest(script, from), i))
      {
        assert TurnAt(Rest(script, from), i) == TurnAt(script, from + i);
      }
    }
  }

  /** One more attempt: it may end the loop, or be one more in vain. */
  lemma OneMoreAttempt(script: seq<Turn>, width: nat, attempt: nat, r: WriteResult, first: Log, before: Log, after: Log)
    requires (width == 2 || width == 3) && attempt < ATTEMPTS && |first| <= |before| && before <= after
    requires TriedInVain(script, width, attempt, first, before)
    requires Tries(Rest(script, width * attempt), width, r, before, after)
    ensures r == Answered(Conflict) ==> TriedInVain(script, width, attempt + 1, first, after)
    ensures r != Answered(Conflict) && Favourable(script, width) ==> r == Answered(Stored) || RemovedSince(first, after)
  {
    AttemptsAnswer(script, width, attempt);
    if RemovedSince(first, before) {
      var v: nat :| |first| - 1 <= v < |before| && Gone(before[v]);
      assert Gone(after[v]);
    }
  }

  lemma RemovedEarlier(first: Log, before: Log, after: Log)
    requires |first| <= |before| && before <= after
    ensures RemovedSince(first, before) || RemovedSince(before, after) ==> RemovedSince(first, after)
  {
    if RemovedSince(first, before) {
      var v: nat :| |first| - 1 <= v < |before| && Gone(before[v]);
      assert Gone(after[v]);
    }
  }

  predicate Mine(a: Action, me: nat) {
    !a.Tick? && a.who == me
  }

  datatype GetResult = Found(version: nat, copy: Resource) | Absent | GetFailed

  /** An unanswered write may or may not have reached the store. */
  datatype WriteResult = Answered(reply: Reply) | Unanswered

  /** What arrives when an object is sent to one of the two endpoints. */
  function AsReceived(sent: Resource, current: Resource, mainPart: bool): Resource {
    if mainPart then MainOf(sent, current) else StatusOf(sent, current)
  }

  ghost function MyStamps(stamps: seq<Stamp>, me: nat): set<nat> {
    set i: nat | i < |stamps| && stamps[i].who == me
  }

  ghost function MyNotices(notices: seq<Notice>, me: nat): set<nat> {
    set i: nat | i < |notices| && notices[i].who == me
  }

  /** Nothing this reconciler holds, has stamped, or has sent differs. */
  ghost predicate SameMine(s: State, t: State, me: nat) {
    && ProcOf(t, me) == ProcOf(s, me)
    && MyStamps(t.stamps, me) == MyStamps(s.stamps, me)
    && MyNotices(t.notices, me) == MyNotices(s.notices, me)
  }

  /** Only time has passed. */
  predicate SameButClock(s: State, t: State) {
    t == s.(clock := t.clock) && s.clock <= t.clock
  }

  predicate SameButLog(s: State, t: State) {
    t == s.(log := t.log, clock := t.clock) && s.clock <= t.clock
  }

  /** Nothing is stored, stamped or sent; time passes, and positions in the protocol may change. */
  predicate SameRecords(s: State, t: State) {
    t == s.(procs := t.procs, clock := t.clock) && s.clock <= t.clock
  }

  /** A second read off the clock between these states. */
  predicate ReadBetween(s: State, t: State, second: int) {
    s.clock / SECOND <= second <= t.clock / SECOND
  }

  /**
   One notification of this reconciler, new since `s`, made on this stamp, after the hour was read at `hourAt` and the
   ledger evaluated at `evaluatedAt`; and no other.
   */
  ghost predicate NoticeFor(s: State, t: State, me: nat, stamp: nat, hourAt: int, evaluatedAt: int) {
    hourAt <= evaluatedAt &&
    exists n: nat :: n < |t.notices| && n !in MyNotices(s.notices, me) &&
      MyNotices(t.notices, me) == MyNotices(s.notices, me) + {n} &&
      t.notices[n].stamp == stamp && t.notices[n].hourAt == hourAt && evaluatedAt <= t.notices[n].at
  }

  /** The store, the clock and the records only grow. */
  ghost predicate Grows(s: State, t: State) {
    s.log <= t.log && s.clock <= t.clock && s.stamps <= t.stamps && s.notices <= t.notices
  }

  lemma ApplyGrows(s: State, a: Action)
    requires s.log != []
    ensures Grows(s, Apply(s, a))
  {
    ApplyKeepsLog(s, a);
  }

  lemma OthersKeepMine(s: State, a: Action, me: nat)
    requires s.log != [] && !Mine(a, me)
    ensures SameMine(s, Apply(s, a), me)
  {
  }

  /** A step of one's own that is only made locally. */
  lemma LocalStepEffect(s: State, a: Action, me: nat)
    requires s.log != [] && IsLocal(a) && a.who == me
    ensures Apply(s, a) == With(s, me, LocalStep(ProcOf(s, me), a, s.clock))
    ensures SameButProcs(s, Apply(s, a)) && ProcOf(Apply(s, a), me) == LocalStep(ProcOf(s, me), a, s.clock)
    ensures Mine(a, me) && Respectful(s, a)
  {
  }

  /** An accepted write that leaves the annotation alone. */
  lemma WriteEffect(s: State, me: nat, content: Resource)
    requires s.log != [] && Judge(s.log, |s.log| - 1, content) == Stored
    requires content.lastChecked == Latest(s.log).lastChecked
    ensures
      var a := OtherWrite(me, |s.log| - 1, content);
      && Apply(s, a) == s.(log := Write(s.log, |s.log| - 1, content))
      && Grows(s, Apply(s, a)) && SameMine(s, Apply(s, a), me)
      && Mine(a, me) && Respectful(s, a)
  {
  }

  lemma NotifyEffect(s: State, me: nat, stamp: nat, hourAt: int, evaluatedAt: int)
    requires s.log != [] && ProcOf(s, me) == Open(stamp, hourAt) && hourAt <= evaluatedAt <= s.clock
    ensures
      var t := Apply(s, Notify(me));
      && Grows(s, t) && t.log == s.log && t.stamps == s.stamps && ProcOf(t, me) == Notified(stamp)
      && NoticeFor(s, t, me, stamp, hourAt, evaluatedAt)
  {
    var t := Apply(s, Notify(me));
    var n: nat := |s.notices|;
    assert t.notices == s.notices + [Notice(me, stamp, hourAt, s.clock)];
    assert forall i: nat :: i < n ==> t.notices[i] == s.notices[i];
    assert MyNotices(t.notices, me) == MyNotices(s.notices, me) + {n};
  }

  predicate IsLocal(a: Action) {
    a.CheckDue? || a.PrepareStamp? || a.CheckWindow? || a.PlanNext? || a.ComputeDelay? || a.Return? || a.GiveUp?
  }

  /** An effective action, with the state it took effect in. */
  datatype Deed = Deed(before: State, action: Action)

  ghost function OwnPart(origin: State, history: seq<Action>, me: nat): seq<Deed>
    requires origin.log != []
  {
    if history == [] then []
    else
      var n := |history| - 1;
      OwnPart(origin, history[..n], me)
      + if Mine(history[n], me) then [Deed(Run(origin, history[..n]), history[n])] else []
  }

  /** The deed puts `content` over the version that is the latest then. */
  predicate PutsOver(d: Deed, me: nat, content: Resource) {
    && d.before.log != [] && Judge(d.before.log, |d.before.log| - 1, content) == Stored
    && d.action == OtherWrite(me, |d.before.log| - 1, content)
  }

  /** A step of the protocol, or one of the writes a pass makes. */
  ghost predicate PassDeed(d: Deed, me: nat) {
    if d.action.OtherWrite?
    then PutsOver(d, me, d.action.content) && PassWrite(Latest(d.before.log), d.action.content)
    else !d.action.Tick? && !d.action.Recreate?
  }

  /** All that has been added are deeds of a pass, and number `commit` alone may be an attempt to stamp. */
  ghost predicate PassDeeds(before: seq<Deed>, own: seq<Deed>, me: nat, commit: int) {
    before <= own && forall i | |before| <= i < |own| ::
      PassDeed(own[i], me) && (own[i].action.CommitStamp? ==> i == commit)
  }

  const NONE := -1

  lemma OneMoreDeed(own: seq<Deed>, d: Deed, me: nat)
    requires PassDeed(d, me)
    ensures PassDeeds(own, own + [d], me, if d.action.CommitStamp? then |own| else NONE)
  {
  }

  /** None of this reconciler's updates outside the daily stamp touches the annotation. */
  ghost predicate OwnRespectful(origin: State, history: seq<Action>, me: nat)
    requires origin.log != []
  {
    forall h | 0 <= h < |history| && Mine(history[h], me) :: Respectful(Run(origin, history[..h]), history[h])
  }

  lemma OneMoreRespectful(origin: State, history: seq<Action>, a: Action, me: nat)
    requires origin.log != [] && OwnRespectful(origin, history, me)
    requires Mine(a, me) ==> Respectful(Run(origin, history), a)
    ensures OwnRespectful(origin, history + [a], me)
  {
    var more := history + [a];
    forall h | 0 <= h < |more| && Mine(more[h], me)
      ensures Respectful(Run(origin, more[..h]), more[h])
    {
      assert more[..h] == history[..h];
      assert history[..|history|] == history;
    }
  }

  lemma OneMoreAction(origin: State, history: seq<Action>, a: Action, me: nat)
    requires origin.log != []
    ensures Run(origin, history + [a]) == Apply(Run(origin, history), a)
    ensures OwnPart(origin, history + [a], me)
         == OwnPart(origin, history, me) + if Mine(a, me) then [Deed(Run(origin, history), a)] else []
  {
    assert (history + [a])[..|history + [a]| - 1] == history;
  }

  class Cluster {
    const me: nat
    var state: State
    var script: seq<Turn>
    ghost const origin: State
    ghost var history: seq<Action>  // what has taken effect, by anyone
    ghost var own: seq<Deed>        // the part of it that is this reconciler's

    ghost predicate Valid()
      reads this
    {
      && origin.log != [] && state == Run(origin, history)
      && own == OwnPart(origin, history, me) && OwnRespectful(origin, history, me)
    }

    /** From now on nobody else does anything, though time may pass; no call fails, and reads are fresh. */
    ghost predicate Quiet()
      reads this
    {
      forall t :: t in script ==> IsQuiet(t)
    }

    /**
     This reconciler has since done one thing: as the last action, it put `content` over the latest version. `before` is
     the state the others had led to by then.
     */
    ghost predicate OneWriteSince(ownBefore: seq<Deed>, before: State, content: Resource)
      reads this
    {
      && before.log != []
      && own == ownBefore + [Deed(before, OtherWrite(me, |before.log| - 1, content))]
      && PutsOver(own[|ownBefore|], me, content)
      && state == before.(log := Write(before.log, |before.log| - 1, content))
    }

    /** Things move on without touching what this reconciler holds, has stamped, or has sent. */
    twostate predicate Onward()
      reads this
    {
      Valid() && old(history) <= history && Grows(old(state), state) && SameMine(old(state), state, me)
    }

    /** As `Onward`, but the position of this reconciler in the protocol may change. */
    twostate predicate OnwardSelf()
      reads this
    {
      && Valid() && old(history) <= history && Grows(old(state), state)
      && MyStamps(state.stamps, me) == MyStamps(old(state).stamps, me)
      && MyNotices(state.notices, me) == MyNotices(old(state).notices, me)
    }

    constructor (me: nat, state: State, script: seq<Turn>)
      requires state.log != []
      ensures Valid() && origin == state == this.state && history == [] && own == []
      ensures this.me == me && this.script == script
    {
      this.me, this.state, this.script := me, state, script;
      origin, history, own := state, [], [];
    }

    method Do(a: Action)
      requires Valid() && (Mine(a, me) ==> Respectful(state, a))
      modifies this`state, this`history, this`own
      ensures Valid() && history == old(history) + [a] && state == Apply(old(state), a)
      ensures own == if Mine(a, me) then old(own) + [Deed(old(state), a)] else old(own)
    {
      OneMoreRespectful(origin, history, a, me);
      OneMoreAction(origin, history, a, me);
      own := if Mine(a, me) then own + [Deed(state, a)] else own;
      state := Apply(state, a);
      history := history + [a];
    }

    method NotifyOn(ghost stamp: nat, ghost hourAt: int, ghost evaluatedAt: int)
      requires Valid() && ProcOf(state, me) == Open(stamp, hourAt) && hourAt <= evaluatedAt <= state.clock
      modifies this`state, this`history, this`own
      ensures Valid() && old(history) <= history && Grows(old(state), state)
      ensures state.log == old(state).log && state.stamps == old(state).stamps
      ensures ProcOf(state, me) == Notified(stamp)
      ensures NoticeFor(old(state), state, me, stamp, hourAt, evaluatedAt)
      ensures PassDeeds(old(own), own, me, NONE)
    {
      ghost var before, ownBefore := state, own;
      NotifyEffect(before, me, stamp, hourAt, evaluatedAt);
      Do(Notify(me));
      OneMoreDeed(ownBefore, Deed(before, Notify(me)), me);
      assert state == Apply(before, Notify(me));
    }

    /** Takes a version in hand, its finalizers possibly edited locally. */
    method Hold(version: nat, copy: Resource)
      requires Valid() && version < |state.log| && CopyOf(copy, state.log[version])
      modifies this`state, this`history, this`own
      ensures Valid() && old(history) <= history
      ensures SameButProcs(old(state), state) && ProcOf(state, me) == Holding(version, copy)
      ensures PassDeeds(old(own), own, me, NONE)
    {
      Do(Load(me, version, copy.finalizers));
    }

    /** The others move; their actions never include one of this reconciler's. */
    method Play() returns (t: Turn)
      requires Valid()
      modifies this
      ensures Onward() && own == old(own)
      ensures script == Rest(old(script), 1) && t == TurnAt(old(script), 0)
      ensures Still(t) ==> SameButClock(old(state), state)
      ensures old(Quiet()) ==> Quiet() && IsQuiet(t) && SameButClock(old(state), state)
    {
      t := QUIET;
      if script != [] {
        t := script[0];
        assert t in script && forall u :: u in script[1..] ==> u in script;
        script := script[1..];
      }
      DoAll(t.others);
    }

    method DoAll(actions: seq<Action>)
      requires Valid()
      modifies this`state, this`history, this`own
      ensures Onward() && own == old(own)
      ensures (forall a :: a in actions ==> a.Tick?) ==> SameButClock(old(state), state)
    {
      for i := 0 to |actions|
        invariant Onward() && own == old(own)
        invariant (forall a :: a in actions ==> a.Tick?) ==> SameButClock(old(state), state)
      {
        var a := actions[i];
        if !Mine(a, me) {
          ApplyGrows(state, a);
          OthersKeepMine(state, a, me);
          Do(a);
        }
      }
    }

    method Now() returns (t: int)
      requires Valid()
      modifies this
      ensures Onward() && own == old(own)
      ensures script == Rest(old(script), 1)
      ensures Still(TurnAt(old(script), 0)) ==> SameButClock(old(state), state)
      ensures old(Quiet()) ==> Quiet() && SameButClock(old(state), state)
      ensures t == state.clock
    {
      var _ := Play();
      t := state.clock;
    }

    /** Reads the clock and takes the step that only needs its value. */
    method ReadClock(a: Action) returns (t: int)
      requires Valid() && IsLocal(a) && a.who == me
      modifies this
      ensures OnwardSelf() && t == state.clock && PassDeeds(old(own), own, me, NONE)
      ensures ProcOf(state, me) == LocalStep(old(ProcOf(state, me)), a, t)
      ensures old(Quiet()) ==> Quiet() && SameRecords(old(state), state)
    {
      t := Now();
      LocalStepEffect(state, a, me);
      Do(a);
    }

    /** Takes a last step without waiting. */
    method Step(a: Action)
      requires Valid() && IsLocal(a) && a.who == me
      modifies this`state, this`history, this`own
      ensures OnwardSelf() && SameButProcs(old(state), state) && PassDeeds(old(own), own, me, NONE)
      ensures ProcOf(state, me) == LocalStep(old(ProcOf(state, me)), a, state.clock)
    {
      LocalStepEffect(state, a, me);
      Do(a);
    }

    /** A read may return any version up to the latest. */
    method Get() returns (r: GetResult)
      requires Valid()
      modifies this
      ensures Onward() && own == old(own)
      ensures r.Found? ==> r.version < |state.log| && state.log[r.version] == r.copy && !Gone(r.copy)
      ensures script == Rest(old(script), 1)
      ensures Answers(TurnAt(old(script), 0)) ==>
        r == if Gone(Latest(state.log)) then Absent else Found(|state.log| - 1, Latest(state.log))
      ensures old(Quiet()) ==>
        && Quiet() && SameButClock(old(state), state)
        && r == if Gone(Latest(state.log)) then Absent else Found(|state.log| - 1, Latest(state.log))
    {
      var t := Play();
      if t.broken {
        return GetFailed;
      }
      var last := |state.log| - 1;
      var version := if t.lag <= last then last - t.lag else 0;
      if Gone(state.log[version]) {
        return Absent;
      }
      return Found(version, state.log[version]);
    }

    /**
     The common part of an update: the content is completed from the version it would replace. `took` says whether the
     write has taken effect, which a lost reply conceals.
     */
    method Put(version: nat, sent: Resource, mainPart: bool)
        returns (r: WriteResult, ghost before: State, ghost took: bool)
      requires Valid()
      requires version < |state.log| && sent.lastChecked == state.log[version].lastChecked
      modifies this
      ensures Onward()
      ensures before.log != [] && Grows(old(state), before)
      ensures
        var content := AsReceived(sent, Latest(before.log), mainPart);
        && (r.Answered? ==> r.reply == Judge(before.log, version, content))
        && (took ==> version == |before.log| - 1 && OneWriteSince(old(own), before, content))
      ensures r.Answered? ==> (took <==> r.reply == Stored)
      ensures !took ==> own == old(own) && state == before
      ensures script == Rest(old(script), 1)
      ensures Answers(TurnAt(old(script), 0)) ==> r.Answered?
      ensures Still(TurnAt(old(script), 0)) ==> SameButClock(old(state), before)
      ensures old(Quiet()) ==> Quiet() && SameButClock(old(state), before) && r.Answered?
    {
      var t := Play();
      before, took := state, false;
      if t.broken {
        return Unanswered, before, took;
      }
      var content := AsReceived(sent, Latest(state.log), mainPart);
      var reply := Judge(state.log, version, content);
      if reply == Stored {
        Store(content);
        took := true;
      }
      r := if t.lost then Unanswered else Answered(reply);
    }

    method Store(content: Resource)
      requires Valid() && Judge(state.log, |state.log| - 1, content) == Stored
      requires content.lastChecked == Latest(state.log).lastChecked
      modifies this`state, this`history, this`own
      ensures old(history) <= history && Onward() && OneWriteSince(old(own), old(state), content)
    {
      ghost var before, past := state, history;
      WriteEffect(before, me, content);
      Do(OtherWrite(me, |state.log| - 1, content));
      assert history[..|history| - 1] == past;
    }

    /**
     Sets one condition, fetching the object again before every attempt. What is written goes over the latest object and
     differs from it in that condition alone; without success nothing was written, or only the reply to this was lost.
     */
    method UpdateStatusCondition(kind: Kind, status: Standing, words: Wording)
        returns (ok: bool, ghost before: State, ghost c: Condition, ghost took: bool)
      requires Valid()
      modifies this
      ensures Onward()
      ensures c == Condition(kind, status, words, c.since)
      ensures took ==> before.log != [] && OneWriteSince(old(own), before, WithCondition(Latest(before.log), c))
      ensures took ==> ReadBetween(old(state), state, c.since)
      ensures ok ==> took
      ensures !took ==> own == old(own)
      ensures Favourable(old(script), 3) ==> ok || RemovedSince(old(state).log, state.log)
      ensures old(Quiet()) ==> Quiet() && (ok <==> !Gone(old(Latest(state.log))))
      ensures old(Quiet()) && ok ==> SameButLog(old(state), state) && state.log == AfterCondition(old(state).log, c)
    {
      c := Condition(kind, status, words, 0);
      before, took := state, false;
      for attempt := 0 to ATTEMPTS
        invariant Onward() && own == old(own) && !took
        invariant c == Condition(kind, status, words, c.since)
        invariant script == Rest(old(script), 3 * attempt)
        invariant TriedInVain(old(script), 3, attempt, old(state).log, state.log)
        invariant old(Quiet()) ==> Quiet() && attempt == 0 && SameButClock(old(state), state)
      {
        var r;
        ghost var log := state.log;
        RestOfRest(old(script), 3 * attempt, 3);
        r, before, c, took := SetConditionOnce(kind, status, words);
        OneMoreAttempt(old(script), 3, attempt, r, old(state).log, log, state.log);
        if r != Answered(Conflict) {
          return r == Answered(Stored), before, c, took;
        }
      }
      return false, before, c, took;
    }

    method SetConditionOnce(kind: Kind, status: Standing, words: Wording)
        returns (r: WriteResult, ghost before: State, ghost c: Condition, ghost took: bool)
      requires Valid()
      modifies this
      ensures Onward()
      ensures c == Condition(kind, status, words, c.since)
      ensures took ==> before.log != [] && OneWriteSince(old(own), before, WithCondition(Latest(before.log), c))
      ensures took ==> ReadBetween(old(state), state, c.since)
      ensures r.Answered? ==> (took <==> r.reply == Stored)
      ensures !took ==> own == old(own)
      ensures r == Answered(Conflict) ==> script == Rest(old(script), 3)
      ensures Tries(old(script), 3, r, old(state).log, state.log)
      ensures old(Quiet()) ==>
        && Quiet() && (r == Answered(Stored) <==> !Gone(old(Latest(state.log)))) && r != Answered(Conflict)
        && (took ==> SameButClock(old(state), before))
    {
      c := Condition(kind, status, words, 0);
      before, took := state, false;
      ghost var turns := script;
      var latest, now := GetThenClock();
      RestOfRest(turns, 2, 1);
      CallByCall(turns);
      if !latest.Found? {
        return Unanswered, before, c, took;
      }
      var newCondition := Condition(kind, status, words, now / SECOND);
      c := newCondition;
      r, before, took := SendCondition(latest.version, latest.copy, newCondition);
    }

    /** The object, and then the time at which it is changed. */
    method GetThenClock() returns (r: GetResult, now: int)
      requires Valid()
      modifies this
      ensures Onward() && own == old(own)
      ensures old(state).clock <= now <= state.clock
      ensures r.Found? ==>
        r.version < |state.log| && state.log[r.version] == r.copy && !Gone(r.copy) && script == Rest(old(script), 2)
      ensures Answers(TurnAt(old(script), 0)) && !r.Found? ==> RemovedSince(old(state).log, state.log)
      ensures Answers(TurnAt(old(script), 0)) && Still(TurnAt(old(script), 1)) && r.Found? ==>
        r.version == |state.log| - 1
      ensures old(Quiet()) ==>
        && Quiet() && SameButClock(old(state), state)
        && r == if Gone(Latest(state.log)) then Absent else Found(|state.log| - 1, Latest(state.log))
    {
      ghost var turns := script;
      r := Get();
      now := state.clock;
      RestOfRest(turns, 1, 1);
      if r.Found? {
        now := Now();
      } else {
        assert Answers(TurnAt(turns, 0)) ==> Gone(state.log[|state.log| - 1]);
      }
    }

    method SendCondition(version: nat, latest: Resource, c: Condition)
        returns (r: WriteResult, ghost before: State, ghost took: bool)
      requires Valid() && version < |state.log| && latest == state.log[version]
      modifies this
      ensures Onward()
      ensures took ==> before.log != [] && OneWriteSince(old(own), before, WithCondition(Latest(before.log), c))
      ensures r.Answered? ==> (took <==> r.reply == Stored)
      ensures !took ==> own == old(own)
      ensures script == Rest(old(script), 1)
      ensures Answers(TurnAt(old(script), 0)) ==>
        r == Answered(Stored) || r == Answered(Conflict) || RemovedSince(old(state).log, state.log)
      ensures r == Answered(Conflict) ==> version < |state.log| - 1
      ensures Still(TurnAt(old(script), 0)) && version == |old(state).log| - 1 ==> r != Answered(Conflict)
      ensures old(Quiet()) ==> Quiet() && SameButClock(old(state), before)
      ensures old(Quiet()) && version == |old(state).log| - 1 ==>
        (r == Answered(Stored) <==> !Gone(latest)) && r != Answered(Conflict)
    {
      r, before, took := Put(version, WithCondition(latest, c), false);
      assert r == Answered(NotFound) ==> Gone(state.log[|state.log| - 1]);
      if took {
        assert before.log[version] == latest;
        assert StatusOf(WithCondition(latest, c), Latest(before.log)) == WithCondition(Latest(before.log), c);
      }
    }

    /**
     The daily status write: one read, then up to five attempts with that same version. It commits on the first attempt
     or not at all, and what it commits over is exactly what was read.
     */
    method WriteDailyStatus(secretStatus: seq<R.SecretStatus>, count: int)
        returns (ok: bool, attempts: nat, ghost before: State, ghost took: bool)
      requires Valid()
      modifies this
      ensures Onward()
      ensures took ==> attempts == 1 && before.log != []
      ensures took ==> OneWriteSince(old(own), before,
                         Latest(before.log).(secretStatus := secretStatus, staleSecretsCount := count))
      ensures ok ==> took
      ensures !took ==> own == old(own)
      ensures attempts <= ATTEMPTS
      ensures old(Quiet()) ==> Quiet() && (ok <==> !Gone(old(Latest(state.log))))
      ensures old(Quiet()) && ok ==> SameButClock(old(state), before)
      ensures old(Quiet()) && !ok ==> SameButClock(old(state), state)
    {
      var r, version, update;
      attempts, r, version, update, before, took := ReadAndReport(secretStatus, count);
      ok := r == Answered(Stored);
      if r == Answered(Conflict) {
        attempts := RetryInVain(version, update);
      }
    }

    /** The read, and the first attempt if it succeeded. */
    method ReadAndReport(secretStatus: seq<R.SecretStatus>, count: int)
        returns (attempts: nat, r: WriteResult, version: nat, update: Resource, ghost before: State, ghost took: bool)
      requires Valid()
      modifies this
      ensures Onward()
      ensures attempts <= 1 && (took || r.Answered? ==> attempts == 1)
      ensures took ==> before.log != []
      ensures took ==> OneWriteSince(old(own), before,
                         Latest(before.log).(secretStatus := secretStatus, staleSecretsCount := count))
      ensures r.Answered? ==> (took <==> r.reply == Stored)
      ensures !took ==> own == old(own)
      ensures r == Answered(Conflict) ==>
        version < |state.log| - 1 && update.lastChecked == state.log[version].lastChecked
      ensures old(Quiet()) ==>
        Quiet() && (r == Answered(Stored) <==> !Gone(old(Latest(state.log)))) && r != Answered(Conflict)
      ensures old(Quiet()) ==> SameButClock(old(state), if took then before else state)
    {
      before, took, version, update := state, false, 0, state.log[0];
      var latest := Get();
      if !latest.Found? {
        return 0, Unanswered, version, update, before, took;
      }
      attempts := 1;
      version := latest.version;
      update := latest.copy.(secretStatus := secretStatus, staleSecretsCount := count);
      r, before, took := SendStatus(version, latest.copy, update);
    }

    method SendStatus(version: nat, latest: Resource, update: Resource)
        returns (r: WriteResult, ghost before: State, ghost took: bool)
      requires Valid() && version < |state.log| && latest == state.log[version] && StatusOf(update, latest) == update
      modifies this
      ensures Onward()
      ensures took ==> before.log != [] && latest == Latest(before.log) && OneWriteSince(old(own), before, update)
      ensures r.Answered? ==> (took <==> r.reply == Stored)
      ensures !took ==> own == old(own)
      ensures r == Answered(Conflict) ==> version < |state.log| - 1
      ensures old(Quiet()) ==> Quiet() && SameButClock(old(state), if took then before else state)
      ensures old(Quiet()) && version == |old(state).log| - 1 ==>
        (r == Answered(Stored) <==> !Gone(latest)) && r != Answered(Conflict)
    {
      r, before, took := Put(version, update, false);
      if took {
        assert before.log[version] == latest == Latest(before.log);
      }
    }

    /** Once the version carried is behind, it stays behind: no further attempt is accepted. */
    method RetryInVain(version: nat, update: Resource) returns (attempts: nat)
      requires Valid() && version < |state.log| - 1 && update.lastChecked == state.log[version].lastChecked
      modifies this
      ensures Onward() && own == old(own)
      ensures 1 < attempts <= ATTEMPTS && script == Rest(old(script), attempts - 1)
      ensures AllAnswer(old(script), ATTEMPTS - 1) ==> attempts == ATTEMPTS || RemovedSince(old(state).log, state.log)
      ensures old(Quiet()) ==> Quiet()
    {
      attempts := 1;
      var again := true;
      while again && attempts < ATTEMPTS
        invariant Onward() && own == old(own)
        invariant 1 <= attempts <= ATTEMPTS && (attempts == 1 ==> again)
        invariant script == Rest(old(script), attempts - 1)
        invariant AllAnswer(old(script), ATTEMPTS - 1) ==> again || RemovedSince(old(state).log, state.log)
        invariant old(Quiet()) ==> Quiet()
      {
        ghost var log := state.log;
        NextAnswers(old(script), attempts - 1, ATTEMPTS - 1);
        again := TryInVain(version, update);
        RemovedEarlier(old(state).log, log, state.log);
        attempts := attempts + 1;
      }
    }

    method TryInVain(version: nat, update: Resource) returns (again: bool)
      requires Valid() && version < |state.log| - 1 && update.lastChecked == state.log[version].lastChecked
      modifies this
      ensures Onward() && own == old(own) && script == Rest(old(script), 1)
      ensures Answers(TurnAt(old(script), 0)) ==> again || RemovedSince(old(state).log, state.log)
      ensures old(Quiet()) ==> Quiet()
    {
      var r, _, _ := Put(version, update, false);
      assert r == Answered(NotFound) ==> Gone(state.log[|state.log| - 1]);
      again := r == Answered(Conflict);
    }

    /**
     Removes this operator's finalizer, fetching the object again before every attempt. What is written takes that
     finalizer off the latest object and keeps everything else, whatever conflicts came between.
     */
    method RemoveFinalizer(copy: Resource) returns (ok: bool, ghost before: State, ghost took: bool)
      requires Valid()
      modifies this
      ensures Onward()
      ensures FINALIZER !in copy.finalizers ==> ok && !took && history == old(history)
      ensures took ==> before.log != [] && OneWriteSince(old(own), before, WithoutFinalizer(Latest(before.log)))
      ensures ok && FINALIZER in copy.finalizers ==> took
      ensures !took ==> own == old(own)
      ensures Favourable(old(script), 2) ==> ok || RemovedSince(old(state).log, state.log)
      ensures old(Quiet()) && !Gone(old(Latest(state.log))) ==> ok
    {
      before, took := state, false;
      if FINALIZER !in copy.finalizers {
        return true, before, took;
      }
      for attempt := 0 to ATTEMPTS
        invariant Onward() && own == old(own) && !took
        invariant script == Rest(old(script), 2 * attempt)
        invariant TriedInVain(old(script), 2, attempt, old(state).log, state.log)
        invariant old(Quiet()) ==> Quiet() && attempt == 0 && SameButClock(old(state), state)
      {
        var r;
        ghost var log := state.log;
        RestOfRest(old(script), 2 * attempt, 2);
        r, before, took := RemoveFinalizerOnce();
        OneMoreAttempt(old(script), 2, attempt, r, old(state).log, log, state.log);
        if r != Answered(Conflict) {
          return r == Answered(Stored), before, took;
        }
      }
      return false, before, took;
    }

    method RemoveFinalizerOnce() returns (r: WriteResult, ghost before: State, ghost took: bool)
      requires Valid()
      modifies this
      ensures Onward()
      ensures took ==> before.log != [] && OneWriteSince(old(own), before, WithoutFinalizer(Latest(before.log)))
      ensures r.Answered? ==> (took <==> r.reply == Stored)
      ensures !took ==> own == old(own)
      ensures r == Answered(Conflict) ==> script == Rest(old(script), 2)
      ensures Tries(old(script), 2, r, old(state).log, state.log)
      ensures old(Quiet()) ==>
        Quiet() && (r == Answered(Stored) <==> !Gone(old(Latest(state.log)))) && r != Answered(Conflict)
    {
      before, took := state, false;
      ghost var turns := script;
      var latest := Get();
      RestOfRest(turns, 1, 1);
      CallByCall(turns);
      if !latest.Found? {
        assert AllAnswer(turns, 2) ==> Gone(state.log[|state.log| - 1]);
        return Unanswered, before, took;
      }
      r, before, took := SendRemoval(latest.version, latest.copy);
    }

    method SendRemoval(version: nat, latest: Resource) returns (r: WriteResult, ghost before: State, ghost took: bool)
      requires Valid() && version < |state.log| && latest == state.log[version]
      modifies this
      ensures Onward()
      ensures took ==> before.log != [] && OneWriteSince(old(own), before, WithoutFinalizer(Latest(before.log)))
      ensures r.Answered? ==> (took <==> r.reply == Stored)
      ensures !took ==> own == old(own)
      ensures script == Rest(old(script), 1)
      ensures Answers(TurnAt(old(script), 0)) ==>
        r == Answered(Stored) || r == Answered(Conflict) || RemovedSince(old(state).log, state.log)
      ensures Still(TurnAt(old(script), 0)) && version == |old(state).log| - 1 ==> r != Answered(Conflict)
      ensures old(Quiet()) ==> Quiet()
      ensures old(Quiet()) && version == |old(state).log| - 1 ==>
        (r == Answered(Stored) <==> !Gone(latest)) && r != Answered(Conflict)
    {
      var update := WithoutFinalizer(latest);
      r, before, took := Put(version, update, true);
      assert r == Answered(NotFound) ==> Gone(state.log[|state.log| - 1]);
      assert version == |before.log| - 1 ==> before.log[version] == latest && MainOf(update, latest) == update;
      if took {
        assert before.log[version] == latest;
        assert MainOf(update, Latest(before.log)) == update;
      }
    }

    /**
     Adds the finalizer to a freshly read copy and sends it. The caller ignores whether that worked and goes on with the
     copy, which has the finalizer unless the read failed, and agrees with the version it carries in everything else.
     Undisturbed, the copy is the version the addition made, and the announcement may already have made a newer one.
     */
    method AddFinalizer(version: nat, copy: Resource) returns (version': nat, copy': Resource, ghost d: Condition)
      requires Valid()
      requires version < |state.log| && CopyOf(copy, state.log[version])
      modifies this
      ensures Onward()
      ensures version' < |state.log| && CopyOf(copy', state.log[version'])
      ensures FINALIZER in copy'.finalizers || (version' == version && copy' == copy && own == old(own))
      ensures FINALIZER in copy.finalizers ==>
        version' == version && copy' == copy && own == old(own) && state == old(state)
      ensures d == FinalizerAdded(d.since)
      ensures PassDeeds(old(own), own, me, NONE)
      ensures old(Quiet()) ==> Quiet()
      ensures old(Quiet()) && FINALIZER !in copy.finalizers && Lacking(old(Latest(state.log))) ==>
        AddedTo(old(state), state, version', copy', d)
    {
      version', copy', d := version, copy, FinalizerAdded(0);
      if FINALIZER in copy.finalizers {
        return;
      }
      var latest := Get();
      if latest.Found? {
        version', copy', d := AddFinalizerTo(latest.version, latest.copy);
      }
    }

    method AddFinalizerTo(version: nat, latest: Resource) returns (version': nat, copy': Resource, ghost d: Condition)
      requires Valid() && version < |state.log| && latest == state.log[version]
      modifies this
      ensures Onward()
      ensures version' < |state.log| && CopyOf(copy', state.log[version'])
      ensures FINALIZER in copy'.finalizers
      ensures d == FinalizerAdded(d.since)
      ensures PassDeeds(old(own), own, me, NONE)
      ensures old(Quiet()) ==> Quiet()
      ensures old(Quiet()) && version == |old(state).log| - 1 && Lacking(latest) ==>
        AddedTo(old(state), state, version', copy', d)
    {
      d := FinalizerAdded(0);
      ghost var before, took;
      var stored;
      stored, version', copy', before, took := SendFinalizer(version, latest);
      if stored {
        ghost var sent := state;
        d := AnnounceFinalizer();
        if old(Quiet()) && version == |old(state).log| - 1 && Lacking(latest) {
          AddedAndAnnounced(old(state), sent, state, d);
        }
      }
    }

    /**
     What is accepted adds this operator's finalizer to the latest object, at most once, and changes nothing else. The
     copy is then that version; when nothing was heard of it, it is the one sent.
    */
    method SendFinalizer(version: nat, latest: Resource)
        returns (stored: bool, version': nat, copy': Resource, ghost before: State, ghost took: bool)
      requires Valid() && version < |state.log| && latest == state.log[version]
      modifies this
      ensures Onward()
      ensures took ==> before.log != [] && OneWriteSince(old(own), before, WithFinalizer(Latest(before.log)))
      ensures !took ==> own == old(own)
      ensures version' < |state.log| && CopyOf(copy', state.log[version']) && FINALIZER in copy'.finalizers
      ensures stored ==> took && version' == |state.log| - 1 && copy' == Latest(state.log)
      ensures old(Quiet()) ==> Quiet()
      ensures old(Quiet()) && version == |old(state).log| - 1 && Lacking(latest) ==>
        stored && SameButLog(old(state), state) && state.log == old(state).log + [WithFinalizer(latest)]
    {
      var update := WithFinalizer(latest);
      var r;
      r, before, took := Put(version, update, true);
      stored := r == Answered(Stored);
      if took {
        assert before.log[version] == latest == Latest(before.log);
        assert MainOf(update, latest) == update;
      }
      version', copy' := if stored then |state.log| - 1 else version, if stored then Latest(state.log) else update;
    }

    method AnnounceFinalizer() returns (ghost d: Condition)
      requires Valid()
      modifies this
      ensures Onward()
      ensures d == FinalizerAdded(d.since)
      ensures PassDeeds(old(own), own, me, NONE)
      ensures old(Quiet()) ==> Quiet()
      ensures old(Quiet()) && !Gone(old(Latest(state.log))) ==>
        SameButLog(old(state), state) && state.log == AfterCondition(old(state).log, d)
    {
      ghost var before, took;
      var ok;
      ok, before, d, took := UpdateStatusCondition(FinalizerKind, IsTrue, OwnWords(FinalizerKind));
    }
  }

  /** A finalizer can and need be added. */
  predicate Lacking(r: Resource) {
    !r.deleting && FINALIZER !in r.finalizers
  }

  lemma AddedAndAnnounced(s: State, sent: State, t: State, d: Condition)
    requires s.log != [] && SameButLog(s, sent) && sent.log == s.log + [WithFinalizer(Latest(s.log))]
    requires SameButLog(sent, t) && t.log == AfterCondition(sent.log, d)
    ensures AddedTo(s, t, |sent.log| - 1, Latest(sent.log), d)
  {
  }

  /** The addition has made a version, the announcement has followed, and this is the copy left in hand. */
  predicate AddedTo(s: State, t: State, version: nat, copy: Resource, d: Condition) {
    && s.log != [] && SameButLog(s, t)
    && version == |s.log| && copy == WithFinalizer(Latest(s.log))
    && t.log == AfterCondition(s.log + [copy], d)
  }

  predicate CopyOf(copy: Resource, stored: Resource) {
    copy == stored.(finalizers := copy.finalizers)
  }
}
