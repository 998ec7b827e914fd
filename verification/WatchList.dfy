/** Which secrets a pass reads: namespace selection, two skipped kinds, and the exclude entries. */
module WatchList {
  import opened Common
  import opened Text

  datatype Exclude = Exclude(namespace: string, secretName: string)

  datatype Selection = Selection(namespace: string, excludeList: seq<Exclude>)

  datatype SecretMeta = SecretMeta(namespace: string, name: string, kind: string)

  /** What the API server lists, in the order it lists it. */
  datatype Listing = Listing(namespaces: seq<string>, secrets: seq<SecretMeta>)

  type Watch = map<string, seq<string>>

  /** Listing within the empty namespace lists every namespace. */
  function SecretsIn(cluster: Listing, ns: string): seq<SecretMeta> {
    if ns == "" then cluster.secrets else Filter(cluster.secrets, (s: SecretMeta) => s.namespace == ns)
  }

  predicate SkippedKind(kind: string) {
    kind == "kubernetes.io/service-account-token" || kind == "bootstrap.kubernetes.io/token"
  }

  predicate Excluded(spec: Selection, ns: string, name: string) {
    exists i :: 0 <= i < |spec.excludeList| && Names(spec.excludeList[i], ns, name)
  }

  predicate Names(e: Exclude, ns: string, name: string) {
    e.namespace == ns && Contains(e.secretName, name)
  }

  function TrimAll(fields: seq<string>): (r: seq<string>)
    ensures |r| == |fields|
    ensures forall i :: 0 <= i < |r| ==> r[i] == Trim(fields[i])
  {
    seq(|fields|, i requires 0 <= i < |fields| => Trim(fields[i]))
  }

  function Selected(spec: Selection, cluster: Listing): seq<string> {
    if spec.namespace == "all" then cluster.namespaces else TrimAll(Split(spec.namespace, ','))
  }

  /** The names one listing of `ns` contributes, in listing order. */
  function Kept(spec: Selection, ns: string, secrets: seq<SecretMeta>): seq<string> {
    if secrets == [] then []
    else
      var n := |secrets| - 1;
      Kept(spec, ns, secrets[..n])
      + (if SkippedKind(secrets[n].kind) || Excluded(spec, ns, secrets[n].name) then [] else [secrets[n].name])
  }

  function Count(xs: seq<string>, x: string): nat {
    if xs == [] then 0 else Count(xs[..|xs| - 1], x) + if xs[|xs| - 1] == x then 1 else 0
  }

  function Copies(n: nat, names: seq<string>): seq<string> {
    if n == 0 then [] else Copies(n - 1, names) + names
  }

  /** The list under `ns`: what its listing keeps, once for each time the selection names it. */
  function ListUnder(spec: Selection, cluster: Listing, namespaces: seq<string>, ns: string): seq<string> {
    Copies(Count(namespaces, ns), Kept(spec, ns, SecretsIn(cluster, ns)))
  }

  function ExpectedWatch(spec: Selection, cluster: Listing): Watch {
    var namespaces := Selected(spec, cluster);
    map ns | ns in namespaces && ListUnder(spec, cluster, namespaces, ns) != [] ::
      ListUnder(spec, cluster, namespaces, ns)
  }

  function ListAt(watch: Watch, ns: string): seq<string> {
    if ns in watch then watch[ns] else []
  }

  /**
   `failing` holds the numbers of the calls to the API server that fail; call 0 lists the namespaces when all of them
   are selected.
   */
  method PrepareWatchList(spec: Selection, cluster: Listing, failing: set<nat>)
      returns (result: Option<Watch>, calls: nat)
    ensures result.Some? ==> result.value == ExpectedWatch(spec, cluster)
    ensures result.Some? <==> NoneFails(Calls(spec, cluster), failing)
    ensures result.Some? ==> calls == Calls(spec, cluster)
    ensures result.None? ==> 0 < calls <= Calls(spec, cluster) && calls - 1 in failing && NoneFails(calls - 1, failing)
  {
    calls := if spec.namespace == "all" then 1 else 0;
    if calls == 1 && 0 in failing {
      return None, calls;
    }
    var namespacesToWatch := SelectNamespaces(spec, cluster);
    result, calls := ListSecrets(spec, cluster, namespacesToWatch, failing, calls);
    if result.Some? {
      ListsDetermineWatch(result.value, spec, cluster);
    }
  }

  /** One listing for each namespace selected, and one more for the namespaces themselves when all are. */
  function Calls(spec: Selection, cluster: Listing): nat {
    |Selected(spec, cluster)| + if spec.namespace == "all" then 1 else 0
  }

  predicate NoneFails(calls: nat, failing: set<nat>) {
    forall i: nat :: i < calls ==> i !in failing
  }

  /** The outer loop: one listing after the other, until one fails. */
  method ListSecrets(spec: Selection, cluster: Listing, namespacesToWatch: seq<string>, failing: set<nat>, first: nat)
      returns (result: Option<Watch>, calls: nat)
    requires NoneFails(first, failing)
    ensures result.Some? ==> Reflects(result.value, spec, cluster, namespacesToWatch)
    ensures result.Some? <==> NoneFails(first + |namespacesToWatch|, failing)
    ensures result.Some? ==> calls == first + |namespacesToWatch|
    ensures result.None? ==>
      && first < calls <= first + |namespacesToWatch| && calls - 1 in failing && NoneFails(calls - 1, failing)
  {
    var secretsToWatch: Watch := map[];
    calls := first;
    for i := 0 to |namespacesToWatch|
      invariant calls == first + i && NoneFails(calls, failing)
      invariant Reflects(secretsToWatch, spec, cluster, namespacesToWatch[..i])
    {
      var ns := namespacesToWatch[i];
      calls := calls + 1;
      if calls - 1 in failing {
        return None, calls;
      }
      secretsToWatch := WatchNamespace(spec, cluster, ns, secretsToWatch, namespacesToWatch[..i]);
      assert namespacesToWatch[..i] + [ns] == namespacesToWatch[..i + 1];
    }
    assert namespacesToWatch[..|namespacesToWatch|] == namespacesToWatch;
    return Some(secretsToWatch), calls;
  }

  /** One turn of the outer loop: the watch list reflects one more namespace. */
  method WatchNamespace(spec: Selection, cluster: Listing, ns: string, before: Watch, ghost namespaces: seq<string>)
      returns (watch: Watch)
    requires Reflects(before, spec, cluster, namespaces)
    ensures Reflects(watch, spec, cluster, namespaces + [ns])
  {
    watch := AddEligible(spec, ns, SecretsIn(cluster, ns), before);
    OneMoreNamespace(before, watch, spec, cluster, namespaces, ns);
  }

  method SelectNamespaces(spec: Selection, cluster: Listing) returns (namespacesToWatch: seq<string>)
    ensures namespacesToWatch == Selected(spec, cluster)
  {
    namespacesToWatch := [];
    if spec.namespace == "all" {
      for i := 0 to |cluster.namespaces|
        invariant namespacesToWatch == cluster.namespaces[..i]
      {
        namespacesToWatch := namespacesToWatch + [cluster.namespaces[i]];
      }
      assert cluster.namespaces[..|cluster.namespaces|] == cluster.namespaces;
    } else {
      var fields := Split(spec.namespace, ',');
      for i := 0 to |fields|
        invariant namespacesToWatch == TrimAll(fields)[..i]
      {
        namespacesToWatch := namespacesToWatch + [Trim(fields[i])];
      }
    }
  }

  /** The watch list has gained these names under `ns`, at the end, and nothing else. */
  ghost predicate Gained(before: Watch, watch: Watch, ns: string, names: seq<string>) {
    && (forall q :: q in watch ==> watch[q] != [])
    && (forall q :: ListAt(watch, q) == ListAt(before, q) + if q == ns then names else [])
  }

  lemma GainedOneMore(before: Watch, watch: Watch, ns: string, names: seq<string>, name: string)
    requires Gained(before, watch, ns, names)
    ensures Gained(before, watch[ns := ListAt(watch, ns) + [name]], ns, names + [name])
  {
    var more := watch[ns := ListAt(watch, ns) + [name]];
    forall q
      ensures ListAt(more, q) == ListAt(before, q) + if q == ns then names + [name] else []
    {
      assert ListAt(watch, q) == ListAt(before, q) + if q == ns then names else [];
    }
  }

  /** The filter over one namespace's listing: survivors are appended under `ns`, other lists stay as they are. */
  method AddEligible(spec: Selection, ns: string, secretList: seq<SecretMeta>, before: Watch) returns (watch: Watch)
    requires forall q :: q in before ==> before[q] != []
    ensures Gained(before, watch, ns, Kept(spec, ns, secretList))
  {
    watch := before;
    for j := 0 to |secretList|
      invariant Gained(before, watch, ns, Kept(spec, ns, secretList[..j]))
    {
      var secret := secretList[j];
      KeptOneMore(spec, ns, secretList, j);
      if SkippedKind(secret.kind) {
        continue;
      }
      var excluded := IsExcluded(spec, ns, secret.name);
      if !excluded {
        GainedOneMore(before, watch, ns, Kept(spec, ns, secretList[..j]), secret.name);
        watch := watch[ns := ListAt(watch, ns) + [secret.name]];
      }
    }
    assert secretList[..|secretList|] == secretList;
  }

  lemma KeptOneMore(spec: Selection, ns: string, secrets: seq<SecretMeta>, j: nat)
    requires j < |secrets|
    ensures Kept(spec, ns, secrets[..j + 1])
         == if SkippedKind(secrets[j].kind) || Excluded(spec, ns, secrets[j].name) then Kept(spec, ns, secrets[..j])
            else Kept(spec, ns, secrets[..j]) + [secrets[j].name]
  {
    assert secrets[..j + 1][..j] == secrets[..j];
    assert Kept(spec, ns, secrets[..j]) + [] == Kept(spec, ns, secrets[..j]);
  }

  method IsExcluded(spec: Selection, ns: string, name: string) returns (excluded: bool)
    ensures excluded <==> Excluded(spec, ns, name)
  {
    excluded := false;
    for i := 0 to |spec.excludeList|
      invariant !excluded
      invariant forall h :: 0 <= h < i ==> !Names(spec.excludeList[h], ns, name)
    {
      if spec.excludeList[i].namespace == ns && Contains(spec.excludeList[i].secretName, name) {
        excluded := true;
        assert Names(spec.excludeList[i], ns, name);
        break;
      }
    }
  }

  /** The watch list built from the namespaces treated so far: nothing missing, nothing extra, no empty list. */
  ghost predicate Reflects(watch: Watch, spec: Selection, cluster: Listing, namespaces: seq<string>) {
    && (forall ns :: ns in watch ==> watch[ns] != [])
    && (forall ns :: ListAt(watch, ns) == ListUnder(spec, cluster, namespaces, ns))
  }

  lemma OneMoreNamespace(before: Watch, after: Watch, spec: Selection, cluster: Listing,
                         namespaces: seq<string>, ns: string)
    requires Reflects(before, spec, cluster, namespaces)
    requires Gained(before, after, ns, Kept(spec, ns, SecretsIn(cluster, ns)))
    ensures Reflects(after, spec, cluster, namespaces + [ns])
  {
    var more := namespaces + [ns];
    assert more[..|more| - 1] == namespaces;
    forall q
      ensures ListAt(after, q) == ListUnder(spec, cluster, more, q)
    {
      assert ListAt(before, q) == ListUnder(spec, cluster, namespaces, q);
      assert Count(more, q) == Count(namespaces, q) + if q == ns then 1 else 0;
    }
  }

  lemma ListsDetermineWatch(watch: Watch, spec: Selection, cluster: Listing)
    requires Reflects(watch, spec, cluster, Selected(spec, cluster))
    ensures watch == ExpectedWatch(spec, cluster)
  {
    var namespaces := Selected(spec, cluster);
    forall ns
      ensures ns in watch <==> ns in ExpectedWatch(spec, cluster)
      ensures ns in watch ==> watch[ns] == ExpectedWatch(spec, cluster)[ns]
    {
      assert ListAt(watch, ns) == ListUnder(spec, cluster, namespaces, ns);
      CountsMembers(namespaces, ns);
    }
  }

  lemma {:induction false} CountsMembers(xs: seq<string>, x: string)
    ensures Count(xs, x) > 0 <==> x in xs
  {
    if xs == [] {
    } else {
      CountsMembers(xs[..|xs| - 1], x);
      assert xs == xs[..|xs| - 1] + [xs[|xs| - 1]];
    }
  }

  lemma {:induction false} CopiesMembers(n: nat, names: seq<string>, x: string)
    ensures x in Copies(n, names) <==> n > 0 && x in names
  {
    if n == 0 {
    } else {
      CopiesMembers(n - 1, names, x);
    }
  }

  lemma {:induction false} KeptMembers(spec: Selection, ns: string, secrets: seq<SecretMeta>, name: string)
    ensures name in Kept(spec, ns, secrets) <==>
            exists s :: s in secrets && s.name == name && !SkippedKind(s.kind) && !Excluded(spec, ns, name)
  {
    if secrets == [] {
    } else {
      var n := |secrets| - 1;
      KeptMembers(spec, ns, secrets[..n], name);
      assert secrets == secrets[..n] + [secrets[n]];
    }
  }

  /** Where the names kept of a listing come from: in listing order, each eligible secret once, and no other. */
  lemma {:induction false} KeptPlaces(spec: Selection, ns: string, secrets: seq<SecretMeta>) returns (places: seq<nat>)
    ensures |places| == |Kept(spec, ns, secrets)|
    ensures forall x :: 0 <= x < |places| ==>
      places[x] < |secrets| && Kept(spec, ns, secrets)[x] == secrets[places[x]].name
    ensures forall x, y :: 0 <= x < y < |places| ==> places[x] < places[y]
    ensures forall i: nat :: i in places <==> i < |secrets| && Wanted(spec, ns, secrets[i])
  {
    if secrets == [] {
      places := [];
    } else {
      var n := |secrets| - 1;
      assert secrets[..n + 1] == secrets;
      KeptOneMore(spec, ns, secrets, n);
      places := KeptPlaces(spec, ns, secrets[..n]);
      KeptIsWanted(spec, ns, secrets[n]);
      if Wanted(spec, ns, secrets[n]) {
        places := places + [n];
      }
    }
  }

  lemma KeptIsWanted(spec: Selection, ns: string, s: SecretMeta)
    ensures Wanted(spec, ns, s) <==> !SkippedKind(s.kind) && !Excluded(spec, ns, s.name)
  {
    EligibleIsWanted(spec, ns, s.(namespace := ns));
  }

  /** A namespace is listed as often as the selection names it. */
  lemma {:induction false} CountIsCardinality(xs: seq<string>, x: string)
    ensures Count(xs, x) == |set i | 0 <= i < |xs| && xs[i] == x|
  {
    var places := set i | 0 <= i < |xs| && xs[i] == x;
    if xs == [] {
      assert places == {};
    } else {
      var n := |xs| - 1;
      CountIsCardinality(xs[..n], x);
      var before := set i | 0 <= i < |xs[..n]| && xs[..n][i] == x;
      assert places == before + if xs[n] == x then {n} else {};
    }
  }

  predicate Watches(watch: Watch, ns: string, name: string) {
    ns in watch && name in watch[ns]
  }

  /** A secret that a listing of `ns` shows, of a kind that is not skipped and that no entry of `ns` excludes. */
  predicate Eligible(spec: Selection, ns: string, s: SecretMeta) {
    (ns == "" || s.namespace == ns) && !SkippedKind(s.kind) && !Excluded(spec, ns, s.name)
  }

  /**
   A secret is listed under a namespace exactly when the namespace is selected and an eligible secret of that name
   exists: one of that namespace or, under the empty name, one of any namespace.
  */
  lemma WatchListIsExact(spec: Selection, cluster: Listing, ns: string, name: string)
    ensures Watches(ExpectedWatch(spec, cluster), ns, name) <==>
            ns in Selected(spec, cluster) && exists s :: s in cluster.secrets && s.name == name && Eligible(spec, ns, s)
  {
    var namespaces := Selected(spec, cluster);
    CountsMembers(namespaces, ns);
    CopiesMembers(Count(namespaces, ns), Kept(spec, ns, SecretsIn(cluster, ns)), name);
    KeptMembers(spec, ns, SecretsIn(cluster, ns), name);
    if Watches(ExpectedWatch(spec, cluster), ns, name) {
      var s :| s in SecretsIn(cluster, ns) && s.name == name && !SkippedKind(s.kind);
      assert s in cluster.secrets && Eligible(spec, ns, s);
    }
    if s :| s in cluster.secrets && s.name == name && Eligible(spec, ns, s) {
      assert s in SecretsIn(cluster, ns);
    }
  }

  /** The exclusion test against an entry of the grammar is membership among the names it lists. */
  lemma ExcludedByGrammar(spec: Selection, ns: string, name: string)
    requires forall e :: e in spec.excludeList ==> InSecretNameGrammar(e.secretName)
    ensures Excluded(spec, ns, name) <==>
            exists e :: e in spec.excludeList && e.namespace == ns && name in ListedNames(e.secretName)
  {
    if Excluded(spec, ns, name) {
      var i :| 0 <= i < |spec.excludeList| && Names(spec.excludeList[i], ns, name);
      ContainsIsMembership(spec.excludeList[i].secretName, name);
    }
    if e :| e in spec.excludeList && e.namespace == ns && name in ListedNames(e.secretName) {
      ContainsIsMembership(e.secretName, name);
      var i :| 0 <= i < |spec.excludeList| && spec.excludeList[i] == e;
      assert Names(spec.excludeList[i], ns, name);
    }
  }

  /** Each namespace selected once: its list is its listing filtered, in order, and no list is empty. */
  lemma ListingOrderIsKept(spec: Selection, cluster: Listing, ns: string)
    requires Distinct(Selected(spec, cluster))
    ensures ns in ExpectedWatch(spec, cluster) ==>
            ExpectedWatch(spec, cluster)[ns] == Kept(spec, ns, SecretsIn(cluster, ns)) != []
    ensures ns in Selected(spec, cluster) && ns !in ExpectedWatch(spec, cluster) ==>
            Kept(spec, ns, SecretsIn(cluster, ns)) == []
  {
    if ns in Selected(spec, cluster) {
      DistinctCountsOnce(Selected(spec, cluster), ns);
      var kept := Kept(spec, ns, SecretsIn(cluster, ns));
      assert Copies(1, kept) == Copies(0, kept) + kept == kept;
    }
  }

  lemma {:induction false} DistinctCountsOnce(xs: seq<string>, x: string)
    requires Distinct(xs) && x in xs
    ensures Count(xs, x) == 1
  {
    var n := |xs| - 1;
    assert xs == xs[..n] + [xs[n]];
    CountsMembers(xs[..n], x);
    if x in xs[..n] {
      DistinctCountsOnce(xs[..n], x);
    }
  }

  /** More exclude entries only remove secrets. */
  lemma ExcludingMoreOnlyRemoves(spec: Selection, more: seq<Exclude>, cluster: Listing, ns: string, name: string)
    requires forall e :: e in spec.excludeList ==> e in more
    ensures Watches(ExpectedWatch(spec.(excludeList := more), cluster), ns, name) ==>
            Watches(ExpectedWatch(spec, cluster), ns, name)
  {
    var stricter := spec.(excludeList := more);
    WatchListIsExact(spec, cluster, ns, name);
    WatchListIsExact(stricter, cluster, ns, name);
    if Excluded(spec, ns, name) {
      var i :| 0 <= i < |spec.excludeList| && Names(spec.excludeList[i], ns, name);
      assert spec.excludeList[i] in more;
      var j :| 0 <= j < |more| && more[j] == spec.excludeList[i];
      assert Names(stricter.excludeList[j], ns, name);
    }
    forall s | s in cluster.secrets && s.name == name && Eligible(stricter, ns, s)
      ensures Eligible(spec, ns, s)
    {
    }
  }

  /**
   A field that trims to nothing, as a trailing comma leaves, gets a list under the empty name exactly when some
   secret of any namespace is eligible there: not of a skipped kind, and excluded by no entry for the empty namespace.
  */
  lemma EmptyFieldSelectsEverything(spec: Selection, cluster: Listing)
    ensures "" in ExpectedWatch(spec, cluster) <==>
            "" in Selected(spec, cluster) && exists s :: s in cluster.secrets && Eligible(spec, "", s)
  {
    var watch := ExpectedWatch(spec, cluster);
    if "" in watch {
      assert watch[""] != [] && watch[""][0] in watch[""];
      WatchListIsExact(spec, cluster, "", watch[""][0]);
      assert Watches(watch, "", watch[""][0]);
    }
    if s :| s in cluster.secrets && Eligible(spec, "", s) {
      WatchListIsExact(spec, cluster, "", s.name);
    }
  }

  // ---------- the two ways to select, said without the selection ----------

  /** A secret that a pass should read: neither of the two types, and not named by an entry for this namespace. */
  predicate Wanted(spec: Selection, ns: string, s: SecretMeta) {
    && s.kind != "kubernetes.io/service-account-token" && s.kind != "bootstrap.kubernetes.io/token"
    && forall e :: e in spec.excludeList && e.namespace == ns ==> !Contains(e.secretName, s.name)
  }

  lemma EligibleIsWanted(spec: Selection, ns: string, s: SecretMeta)
    ensures Eligible(spec, ns, s) <==> (ns == "" || s.namespace == ns) && Wanted(spec, ns, s)
  {
    if Excluded(spec, ns, s.name) {
      var i :| 0 <= i < |spec.excludeList| && Names(spec.excludeList[i], ns, s.name);
      assert spec.excludeList[i] in spec.excludeList;
    } else {
      forall e | e in spec.excludeList && e.namespace == ns
        ensures !Contains(e.secretName, s.name)
      {
        var i :| 0 <= i < |spec.excludeList| && spec.excludeList[i] == e;
        assert !Names(spec.excludeList[i], ns, s.name);
      }
    }
  }

  /** "all" watches every namespace the cluster lists. */
  lemma AllWatchesTheCluster(spec: Selection, cluster: Listing, ns: string, name: string)
    requires spec.namespace == "all" && ns != ""
    ensures Watches(ExpectedWatch(spec, cluster), ns, name) <==>
            && ns in cluster.namespaces
            && exists s :: s in cluster.secrets && s.namespace == ns && s.name == name && Wanted(spec, ns, s)
  {
    WatchedIsWanted(spec, cluster, ns, name);
  }

  /** Any other value the pattern admits watches the one namespace of that name, listed or not. */
  lemma NameWatchesItself(spec: Selection, cluster: Listing, ns: string, name: string)
    requires spec.namespace != "all" && spec.namespace != "" && ns != ""
    requires forall c :: c in spec.namespace ==> NameChar(c) && c != '.'
    ensures Watches(ExpectedWatch(spec, cluster), ns, name) <==>
            && ns == spec.namespace
            && exists s :: s in cluster.secrets && s.namespace == ns && s.name == name && Wanted(spec, ns, s)
  {
    NamespacePatternIsOneField(spec.namespace);
    assert TrimAll(Split(spec.namespace, ',')) == [spec.namespace];
    WatchedIsWanted(spec, cluster, ns, name);
  }

  /** A list without spaces and empty fields watches the namespaces it names. */
  lemma ListWatchesItsNames(spec: Selection, cluster: Listing, names: seq<string>, ns: string, name: string)
    requires names != [] && Free(names, ',') && spec.namespace == Join(names, ',')
    requires spec.namespace != "all" && ns != ""
    requires forall n :: n in names ==> Trim(n) == n
    ensures Watches(ExpectedWatch(spec, cluster), ns, name) <==>
            && ns in names
            && exists s :: s in cluster.secrets && s.namespace == ns && s.name == name && Wanted(spec, ns, s)
  {
    SplitJoin(names, ',');
    assert TrimAll(names) == names by {
      assert forall i :: 0 <= i < |names| ==> names[i] in names;
    }
    WatchedIsWanted(spec, cluster, ns, name);
  }

  lemma WatchedIsWanted(spec: Selection, cluster: Listing, ns: string, name: string)
    requires ns != ""
    ensures Watches(ExpectedWatch(spec, cluster), ns, name) <==>
            && ns in Selected(spec, cluster)
            && exists s :: s in cluster.secrets && s.namespace == ns && s.name == name && Wanted(spec, ns, s)
  {
    WatchListIsExact(spec, cluster, ns, name);
    forall s
      ensures Eligible(spec, ns, s) <==> s.namespace == ns && Wanted(spec, ns, s)
    {
      EligibleIsWanted(spec, ns, s);
    }
  }
}
