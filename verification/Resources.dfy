/**
 The custom resource and the versioned store that holds it. The store is the log of all versions ever stored; a write
 is accepted only when it carries the current version, and a write that changes nothing stores nothing.
 */
module Resources {
  import opened Common
  import opened Clock
  import R = Report
  import W = WatchList

  /** The type of a condition: one of this operator's own, or another one by its name. */
  datatype Kind = StartKind | WatchlistKind | CompleteKind | FinalizerKind | ConfigMapKind | OtherKind(name: string)

  datatype Standing = IsTrue | IsFalse | IsUnknown

  /** Reason and message: what this operator always says with a type of its own, or something else. */
  datatype Wording = OwnWords(kind: Kind) | OtherWords(reason: string, message: string)

  datatype Condition = Condition(kind: Kind, status: Standing, words: Wording, since: int)

  datatype Resource = Resource(
    selection: W.Selection,
    thresholdDays: int,
    finalizers: seq<string>,
    deleting: bool,
    lastChecked: Option<TimeText>,  // the annotation
    conditions: seq<Condition>,
    secretStatus: seq<R.SecretStatus>,
    staleSecretsCount: int)

  type Log = seq<Resource>

  function Latest(log: Log): Resource
    requires log != []
  {
    log[|log| - 1]
  }

  /** Marked for deletion with no finalizer left: the object no longer exists. */
  predicate Gone(r: Resource) {
    r.deleting && r.finalizers == []
  }

  /** What the API server lets an update do to an object marked for deletion. */
  predicate Legal(old_: Resource, new_: Resource) {
    old_.deleting ==> new_.deleting && forall f :: f in new_.finalizers ==> f in old_.finalizers
  }

  datatype Reply = Stored | Conflict | NotFound | Rejected

  function Judge(log: Log, version: nat, new_: Resource): Reply
    requires log != []
  {
    if Gone(Latest(log)) then NotFound
    else if version != |log| - 1 then Conflict
    else if !Legal(Latest(log), new_) then Rejected
    else Stored
  }

  function Write(log: Log, version: nat, new_: Resource): Log
    requires log != []
  {
    if Judge(log, version, new_) == Stored && new_ != Latest(log) then log + [new_] else log
  }

  /** An update through the main endpoint leaves the status alone; one through the status endpoint leaves the rest. */
  function MainOf(new_: Resource, current: Resource): Resource {
    new_.(conditions := current.conditions,
          secretStatus := current.secretStatus,
          staleSecretsCount := current.staleSecretsCount)
  }

  function StatusOf(new_: Resource, current: Resource): Resource {
    current.(conditions := new_.conditions,
             secretStatus := new_.secretStatus,
             staleSecretsCount := new_.staleSecretsCount)
  }

  // ---------- conditions ----------

  function ConditionIndex(cs: seq<Condition>, kind: Kind): (i: nat)
    ensures i <= |cs|
    ensures i < |cs| ==> cs[i].kind == kind
    ensures forall h :: 0 <= h < i ==> cs[h].kind != kind
  {
    if cs == [] || cs[0].kind == kind then 0 else 1 + ConditionIndex(cs[1..], kind)
  }

  /** Update by type: the transition time moves only when the status does. */
  function SetCondition(cs: seq<Condition>, c: Condition): seq<Condition> {
    var i := ConditionIndex(cs, c.kind);
    if i < |cs| then cs[i := if cs[i].status == c.status then c.(since := cs[i].since) else c]
    else cs + [c]
  }

  function WithCondition(r: Resource, c: Condition): Resource {
    r.(conditions := SetCondition(r.conditions, c))
  }

  predicate HasCondition(cs: seq<Condition>, c: Condition) {
    var i := ConditionIndex(cs, c.kind);
    i < |cs| && cs[i] == c.(since := cs[i].since)
  }

  /** Setting a condition changes nothing exactly when it is already there, its transition time aside. */
  lemma SetConditionIsIdleIffPresent(cs: seq<Condition>, c: Condition)
    ensures SetCondition(cs, c) == cs <==> HasCondition(cs, c)
  {
    var i := ConditionIndex(cs, c.kind);
    if i < |cs| {
      assert SetCondition(cs, c)[i] == if cs[i].status == c.status then c.(since := cs[i].since) else c;
      if HasCondition(cs, c) {
        assert SetCondition(cs, c) == cs;
      }
    } else {
      assert |SetCondition(cs, c)| == |cs| + 1;
    }
  }

  /** Setting one condition establishes it and leaves the other types as they are. */
  lemma SetConditionFrame(cs: seq<Condition>, c: Condition, d: Condition)
    ensures HasCondition(SetCondition(cs, c), c)
    ensures d.kind != c.kind ==> (HasCondition(SetCondition(cs, c), d) <==> HasCondition(cs, d))
    ensures |cs| <= |SetCondition(cs, c)| <= |cs| + 1
    ensures forall i :: 0 <= i < |cs| && SetCondition(cs, c)[i].since != cs[i].since ==>
      cs[i].kind == c.kind && cs[i].status != c.status
  {
    var after := SetCondition(cs, c);
    var i := ConditionIndex(cs, c.kind);
    assert forall h :: 0 <= h < |cs| ==> after[h].kind == cs[h].kind && (h != i ==> after[h] == cs[h]);
    assert ConditionIndex(after, c.kind) == i by {
      var j := ConditionIndex(after, c.kind);
      assert after[i].kind == c.kind;
      assert j <= i;
    }
    if d.kind != c.kind {
      var j, j' := ConditionIndex(cs, d.kind), ConditionIndex(after, d.kind);
      if j < |cs| {
        assert after[j].kind == d.kind;
        assert j == j';
      } else {
        assert j' == |after|;
      }
    }
  }

  /** The date: a condition that is new, or whose status changes, takes the one given; any other keeps its own. */
  lemma SetConditionDates(cs: seq<Condition>, c: Condition)
    ensures (forall d :: d in cs ==> d.kind != c.kind) ==> SetCondition(cs, c) == cs + [c]
    ensures forall i :: 0 <= i < |cs| && cs[i].kind == c.kind && (forall h :: 0 <= h < i ==> cs[h].kind != c.kind) ==>
      SetCondition(cs, c) == cs[i := c.(since := if cs[i].status == c.status then cs[i].since else c.since)]
  {
    var at := ConditionIndex(cs, c.kind);
    forall i | 0 <= i < |cs| && cs[i].kind == c.kind && (forall h :: 0 <= h < i ==> cs[h].kind != c.kind)
      ensures i == at
    {
    }
    assert at < |cs| ==> cs[at] in cs;
  }

  // ---------- what a condition, or a finalizer, does to the log ----------

  function AfterCondition(log: Log, d: Condition): (after: Log)
    requires log != []
    ensures after != []
  {
    Write(log, |log| - 1, WithCondition(Latest(log), d))
  }

  /** Setting a condition makes a new version exactly when the condition was not there. */
  lemma ConditionWrite(log: Log, d: Condition)
    requires log != [] && !Gone(Latest(log))
    ensures
      var after := AfterCondition(log, d);
      && Latest(after) == WithCondition(Latest(log), d)
      && |log| <= |after| <= |log| + 1
      && (|after| == |log| <==> HasCondition(Latest(log).conditions, d))
  {
    var w := Latest(log);
    SetConditionIsIdleIffPresent(w.conditions, d);
    assert Judge(log, |log| - 1, WithCondition(w, d)) == Stored;
    assert WithCondition(w, d) == w <==> SetCondition(w.conditions, d) == w.conditions;
  }

  function Including(finalizers: seq<string>, f: string): (r: seq<string>)
    ensures forall g :: g in r <==> g in finalizers || g == f
  {
    if f in finalizers then finalizers else finalizers + [f]
  }

  function Without(finalizers: seq<string>, f: string): (r: seq<string>)
    ensures forall g :: g in r <==> g in finalizers && g != f
  {
    Filter(finalizers, g => g != f)
  }

  const FINALIZER := "security.stalesecretwatch.io/finalizer"

  function WithFinalizer(r: Resource): Resource {
    r.(finalizers := Including(r.finalizers, FINALIZER))
  }

  function WithoutFinalizer(r: Resource): Resource {
    r.(finalizers := Without(r.finalizers, FINALIZER))
  }

  // ---------- what this operator writes ----------

  /** The conditions every completed pass sets, in this order. */
  function Started(since: int): Condition {
    Condition(StartKind, IsTrue, OwnWords(StartKind), since)
  }

  function Prepared(since: int): Condition {
    Condition(WatchlistKind, IsTrue, OwnWords(WatchlistKind), since)
  }

  function Completed(since: int): Condition {
    Condition(CompleteKind, IsTrue, OwnWords(CompleteKind), since)
  }

  function FinalizerAdded(since: int): Condition {
    Condition(FinalizerKind, IsTrue, OwnWords(FinalizerKind), since)
  }

  function ConfigMapAdded(since: int): Condition {
    Condition(ConfigMapKind, IsTrue, OwnWords(ConfigMapKind), since)
  }

  /** The name of a type as it is stored. */
  function TypeName(kind: Kind): string {
    match kind
    case StartKind => "ReconcileStarted"
    case WatchlistKind => "PrepareWatchlist"
    case CompleteKind => "ReconcileComplete"
    case FinalizerKind => "FinalizerAdded"
    case ConfigMapKind => "ConfigMapCreated"
    case OtherKind(name) => name
  }

  /** This operator's own types have five different names, so that setting one never overwrites another. */
  lemma TypeNamesDiffer(kind: Kind, other: Kind)
    requires !kind.OtherKind? && !other.OtherKind?
    ensures TypeName(kind) == TypeName(other) <==> kind == other
  {
    assert "ReconcileStarted"[9] != "ReconcileComplete"[9];
  }

  predicate IsNamed(c: Condition) {
    || c == Started(c.since) || c == Prepared(c.since) || c == Completed(c.since)
    || c == FinalizerAdded(c.since) || c == ConfigMapAdded(c.since)
  }

  function WithReport(r: Resource, statuses: seq<R.SecretStatus>): Resource {
    r.(secretStatus := statuses, staleSecretsCount := |statuses|)
  }

  /** All that a pass over a live resource writes into it, besides the stamp. */
  ghost predicate PassWrite(latest: Resource, content: Resource) {
    || content == WithFinalizer(latest)
    || content == WithReport(latest, content.secretStatus)
    || exists c :: IsNamed(c) && content == WithCondition(latest, c)
  }
}
