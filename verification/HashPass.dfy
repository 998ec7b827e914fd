/**
 One hashing pass: load the ledger, visit every watched secret in whatever order the watch map yields its namespaces,
 record what each read shows, and write the result back once.
 */
module HashPass {
  import opened Common
  import opened Clock
  import opened Ledger
  import opened HashInput
  import CD = ConfigData
  import WatchList

  type Watch = WatchList.Watch

  /** A secret as read: its data, the creation time, the times of its managed-field entries, and its type. */
  datatype SecretObject = SecretObject(data: Data, created: int, managed: seq<int>, kind: string)

  type Digest = seq<bv8> -> string

  /** The i-th read of a pass yields a secret or fails; reads past the end of the script fail. */
  type Answers = seq<Option<SecretObject>>

  function Answer(answers: Answers, i: nat): Option<SecretObject> {
    if i < |answers| then answers[i] else None
  }

  function RetrieveModifiedTime(s: SecretObject): TimeText {
    if |s.managed| > 0 then Format(s.managed[|s.managed| - 1]) else Format(s.created)
  }

  ghost function Observe(s: SecretObject, digest: Digest): Observation {
    Observation(digest(Canonical(s.data)), Format(s.created), RetrieveModifiedTime(s), s.kind)
  }

  /** The stored field: missing or empty, bytes that do not decode, or an encoded ledger. */
  datatype Blob = Empty | Corrupt | Encoded(book: Book)

  /**
   What happens around the loops: failures of the load, of the second look and of the write, the loss of the write's
   reply, and what others have put in the place of the stored object between the load and the second look.
   */
  datatype Faults = Faults(load: bool, recheck: bool, write: bool, lost: bool, meanwhile: Option<Option<Blob>>)

  class ConfigMapStore {
    var stored: Option<Blob>  // None when the object does not exist
    var writes: nat

    constructor (stored: Option<Blob>)
      ensures this.stored == stored && writes == 0
    {
      this.stored, writes := stored, 0;
    }

    method CreateEmpty()
      requires stored.None?
      modifies this
      ensures stored == Some(Empty) && writes == old(writes)
    {
      stored := Some(Empty);
    }

    /** The others' doing. */
    method Meanwhile(others: Option<Option<Blob>>)
      modifies this
      ensures stored == others.GetOr(old(stored)) && writes == old(writes)
    {
      if others.Some? {
        stored := others.value;
      }
    }

    /**
     Looks again, then overwrites the data of whatever is there. An object that has vanished is not brought back: the
     one sent for creation still carries the version of an earlier read, which the server refuses.
     */
    method CreateOrUpdateConfigMap(book: Book, faults: Faults) returns (ok: bool)
      modifies this
      ensures stored == if Accepts(old(stored), faults) then Some(Encoded(book)) else old(stored)
      ensures writes == old(writes) + if Accepts(old(stored), faults) then 1 else 0
      ensures ok == (Accepts(old(stored), faults) && !faults.lost)
    {
      if faults.recheck {
        return false;
      }
      if stored.None? || faults.write {
        return false;
      }
      stored, writes := Some(Encoded(book)), writes + 1;
      return !faults.lost;
    }
  }

  // ---------- what a pass does, without its loops ----------

  ghost predicate IsEnumeration(order: seq<string>, names: set<string>) {
    Distinct(order) && Elements(order) == names
  }

  function KeysIn(ns: string, names: seq<string>): (keys: seq<Key>)
    ensures |keys| == |names|
    ensures forall i :: 0 <= i < |keys| ==> keys[i] == Key(ns, names[i])
  {
    seq(|names|, i requires 0 <= i < |names| => Key(ns, names[i]))
  }

  /** The visits of a pass that walks the namespaces in this order. */
  function Flatten(order: seq<string>, watch: Watch): seq<Key>
    requires forall ns :: ns in order ==> ns in watch
  {
    if order == [] then []
    else
      var n := |order| - 1;
      assert forall ns :: ns in order[..n] ==> ns in order;
      Flatten(order[..n], watch) + KeysIn(order[n], watch[order[n]])
  }

  /**
   The ledger a pass starts from: what decodes, or an empty one when there is nothing to decode; None when the load or
   the decoding fails.
  */
  function Loaded(stored: Option<Blob>, faults: Faults): (book: Option<Book>)
    ensures book.Some? <==> !faults.load && stored != Some(Corrupt)
    ensures book.Some? && book.value != [] ==> stored == Some(Encoded(book.value))
  {
    if faults.load then None
    else match stored
         case None => Some([])
         case Some(Empty) => Some([])
         case Some(Corrupt) => None
         case Some(Encoded(book)) => Some(book)
  }

  /** What is stored when the pass looks again. */
  function Current(stored: Option<Blob>, faults: Faults): Option<Blob> {
    faults.meanwhile.GetOr(stored)
  }

  predicate Accepts(current: Option<Blob>, faults: Faults) {
    current.Some? && !faults.recheck && !faults.write
  }

  predicate AllRead(n: nat, answers: Answers) {
    forall i: nat :: i < n ==> Answer(answers, i).Some?
  }

  /** The visits whose reads start at call number `from`. */
  ghost function ToVisits(keys: seq<Key>, from: nat, answers: Answers, digest: Digest): (visits: seq<Visit>)
    requires AllRead(from + |keys|, answers)
    ensures |visits| == |keys|
    ensures forall i :: 0 <= i < |visits| ==>
      visits[i] == Visit(keys[i], Observe(Answer(answers, from + i).value, digest))
  {
    seq(|keys|, i requires 0 <= i < |keys| && Answer(answers, from + i).Some? =>
      Visit(keys[i], Observe(Answer(answers, from + i).value, digest)))
  }

  lemma ToVisitsConcat(xs: seq<Key>, ys: seq<Key>, answers: Answers, digest: Digest)
    requires AllRead(|xs| + |ys|, answers)
    ensures ToVisits(xs + ys, 0, answers, digest)
         == ToVisits(xs, 0, answers, digest) + ToVisits(ys, |xs|, answers, digest)
  {
  }

  /** The write takes effect; a pass that visits nothing writes nothing. */
  ghost predicate Writes(stored: Option<Blob>, keys: seq<Key>, answers: Answers, faults: Faults) {
    && Loaded(stored, faults).Some?
    && AllRead(|keys|, answers)
    && keys != []
    && Accepts(Current(stored, faults), faults)
  }

  /** The pass ends without an error: whatever it had to write was written, and the reply came through. */
  ghost predicate Succeeds(stored: Option<Blob>, keys: seq<Key>, answers: Answers, faults: Faults) {
    && Loaded(stored, faults).Some?
    && AllRead(|keys|, answers)
    && (keys != [] ==> Writes(stored, keys, answers, faults) && !faults.lost)
  }

  /** All or nothing: everything the pass has seen, on top of what it loaded, or what is there anyway. */
  ghost function After(stored: Option<Blob>, keys: seq<Key>, answers: Answers, faults: Faults, digest: Digest)
      : Option<Blob> {
    if Writes(stored, keys, answers, faults)
    then Some(Encoded(Apply(Loaded(stored, faults).value, ToVisits(keys, 0, answers, digest))))
    else Current(stored, faults)
  }

  lemma FlattenExtends(order: seq<string>, more: seq<string>, watch: Watch)
    requires forall ns :: ns in order + more ==> ns in watch
    ensures forall ns :: ns in order ==> ns in order + more
    ensures Flatten(order, watch) <= Flatten(order + more, watch)
  {
    if more == [] {
      assert order + more == order;
    } else {
      var n := |more| - 1;
      assert forall ns :: ns in order + more[..n] ==> ns in order + more;
      FlattenExtends(order, more[..n], watch);
      assert (order + more)[..|order + more| - 1] == order + more[..n];
    }
  }

  lemma CompleteOrder(order: seq<string>, names: set<string>) returns (full: seq<string>)
    requires Distinct(order) && Elements(order) <= names
    ensures IsEnumeration(full, names) && order <= full
    decreases names - Elements(order)
  {
    if Elements(order) == names {
      full := order;
    } else {
      assert names == Elements(order) + (names - Elements(order));
      var ns :| ns in names - Elements(order);
      assert ns !in order;
      var longer := order + [ns];
      assert Elements(longer) == Elements(order) + {ns};
      full := CompleteOrder(longer, names);
    }
  }

  method CalculateAndStoreHashedSecrets(cm: ConfigMapStore, watch: Watch, answers: Answers, faults: Faults,
                                        digest: Digest)
      returns (ok: bool, ghost order: seq<string>)
    modifies cm
    ensures IsEnumeration(order, watch.Keys) && forall ns :: ns in order ==> ns in watch
    ensures ok == Succeeds(old(cm.stored), Flatten(order, watch), answers, faults)
    ensures cm.stored == After(old(cm.stored), Flatten(order, watch), answers, faults, digest)
    ensures cm.writes
         == old(cm.writes) + if Writes(old(cm.stored), Flatten(order, watch), answers, faults) then 1 else 0
  {
    order := CompleteOrder([], watch.Keys);
    assert forall ns :: ns in order ==> ns in Elements(order);
    var start := Loaded(cm.stored, faults);
    cm.Meanwhile(faults.meanwhile);
    if start.None? {
      return false, order;
    }
    var configData := new CD.ConfigData.Decode(start.value);
    var updated;
    ok, updated, order := HashAll(configData, watch, answers, digest);
    if ok && updated {
      ok := cm.CreateOrUpdateConfigMap(configData.View(), faults);
    }
  }

  /** The outer loop: namespaces in any order, until a read fails. */
  method HashAll(configData: CD.ConfigData, watch: Watch, answers: Answers, digest: Digest)
      returns (ok: bool, updated: bool, ghost order: seq<string>)
    requires configData.Valid()
    modifies configData.Repr
    ensures configData.Valid() && fresh(configData.Repr - old(configData.Repr))
    ensures IsEnumeration(order, watch.Keys) && forall ns :: ns in order ==> ns in watch
    ensures ok == AllRead(|Flatten(order, watch)|, answers)
    ensures ok ==> updated == (Flatten(order, watch) != [])
    ensures !ok ==> Flatten(order, watch) != []
    ensures ok ==>
      configData.View() == Apply(old(configData.View()), ToVisits(Flatten(order, watch), 0, answers, digest))
  {
    ghost var book := configData.View();
    order := [];
    var calls: nat := 0;
    var rest := watch.Keys;
    while rest != {}
      invariant Walked(order, rest, watch, calls, answers)
      invariant configData.Valid() && fresh(configData.Repr - old(configData.Repr))
      invariant configData.View() == Apply(book, ToVisits(Flatten(order, watch), 0, answers, digest))
    {
      var ns :| ns in rest;
      var failedAt := HashNamespace(configData, ns, watch[ns], answers, calls, digest);
      if failedAt < |watch[ns]| {
        order := ReadFailed(order, rest, ns, failedAt, watch, calls, answers);
        return false, true, order;
      }
      ExtendWalk(book, order, rest, ns, watch, calls, answers, digest);
      calls := calls + |watch[ns]|;
      order := order + [ns];
      rest := rest - {ns};
    }
    return true, calls > 0, order;
  }

  /** The walk so far: which namespaces are done, and how many reads they took. */
  ghost predicate Walked(order: seq<string>, rest: set<string>, watch: Watch, calls: nat, answers: Answers) {
    && rest <= watch.Keys && Distinct(order) && Elements(order) == watch.Keys - rest
    && (forall ns :: ns in order ==> ns in watch)
    && calls == |Flatten(order, watch)|
    && AllRead(calls, answers)
  }

  lemma OneMoreNamespace(order: seq<string>, rest: set<string>, ns: string, watch: Watch, calls: nat, answers: Answers)
    requires Walked(order, rest, watch, calls, answers) && ns in rest
    requires AllRead(calls + |watch[ns]|, answers)
    ensures Walked(order + [ns], rest - {ns}, watch, calls + |watch[ns]|, answers)
    ensures Flatten(order + [ns], watch) == Flatten(order, watch) + KeysIn(ns, watch[ns])
  {
    assert ns !in Elements(order);
    assert (order + [ns])[..|order|] == order;
    assert Elements(order + [ns]) == Elements(order) + {ns};
  }

  lemma ApplyMore(book: Book, keys: seq<Key>, more: seq<Key>, answers: Answers, digest: Digest)
    requires AllRead(|keys| + |more|, answers)
    ensures Apply(book, ToVisits(keys + more, 0, answers, digest))
         == Apply(Apply(book, ToVisits(keys, 0, answers, digest)), ToVisits(more, |keys|, answers, digest))
  {
    ToVisitsConcat(keys, more, answers, digest);
    ApplyConcat(book, ToVisits(keys, 0, answers, digest), ToVisits(more, |keys|, answers, digest));
  }

  lemma ExtendWalk(book: Book, order: seq<string>, rest: set<string>, ns: string, watch: Watch, calls: nat,
                   answers: Answers, digest: Digest)
    requires Walked(order, rest, watch, calls, answers) && ns in rest
    requires AllRead(calls + |watch[ns]|, answers)
    ensures Walked(order + [ns], rest - {ns}, watch, calls + |watch[ns]|, answers)
    ensures Apply(book, ToVisits(Flatten(order + [ns], watch), 0, answers, digest))
         == Apply(Apply(book, ToVisits(Flatten(order, watch), 0, answers, digest)),
                  ToVisits(KeysIn(ns, watch[ns]), calls, answers, digest))
  {
    OneMoreNamespace(order, rest, ns, watch, calls, answers);
    ApplyMore(book, Flatten(order, watch), KeysIn(ns, watch[ns]), answers, digest);
  }

  method ObserveSecret(s: SecretObject, digest: Digest) returns (seen: Observation)
    ensures seen == Observe(s, digest)
    ensures seen.hash == digest(Canonical(s.data)) && seen.created == Format(s.created) && seen.kind == s.kind
    ensures seen.lastModified == Format(if s.managed == [] then s.created else s.managed[|s.managed| - 1])
  {
    var newHash := CalculateHash(s.data, digest);
    seen := Observation(newHash, Format(s.created), RetrieveModifiedTime(s), s.kind);
  }

  /** Reads, hashes and records one secret; nothing happens when the read failed. */
  method VisitSecret(configData: CD.ConfigData, k: Key, secret: Option<SecretObject>, digest: Digest)
      returns (read: bool)
    requires configData.Valid()
    modifies configData.Repr
    ensures configData.Valid() && fresh(configData.Repr - old(configData.Repr))
    ensures read == secret.Some?
    ensures configData.View() == if read then Upsert(old(configData.View()), Visit(k, Observe(secret.value, digest)))
                                 else old(configData.View())
  {
    read := secret.Some?;
    if read {
      var seen := ObserveSecret(secret.value, digest);
      configData.RecordVisit(Visit(k, seen));
    }
  }

  /** The book after the first `n` visits of one namespace. */
  ghost predicate Reached(now: Book, start: Book, keys: seq<Key>, n: nat, calls: nat, answers: Answers,
                          digest: Digest) {
    && n <= |keys| && AllRead(calls + n, answers)
    && now == Apply(start, ToVisits(keys[..n], calls, answers, digest))
  }

  /** Nothing is reached at first, and everything at last. */
  lemma ReachedEnds(now: Book, start: Book, keys: seq<Key>, calls: nat, answers: Answers, digest: Digest)
    requires AllRead(calls, answers)
    ensures now == start ==> Reached(now, start, keys, 0, calls, answers, digest)
    ensures Reached(now, start, keys, |keys|, calls, answers, digest) ==>
      now == Apply(start, ToVisits(keys, calls, answers, digest))
  {
    assert keys[..|keys|] == keys;
  }

  lemma OneMoreVisit(now: Book, start: Book, keys: seq<Key>, n: nat, calls: nat, answers: Answers, digest: Digest)
    requires Reached(now, start, keys, n, calls, answers, digest)
    requires n < |keys| && Answer(answers, calls + n).Some?
    ensures Reached(Upsert(now, Visit(keys[n], Observe(Answer(answers, calls + n).value, digest))),
                    start, keys, n + 1, calls, answers, digest)
  {
    var v := Visit(keys[n], Observe(Answer(answers, calls + n).value, digest));
    ToVisitsOneMore(keys, n, calls, answers, digest);
    ApplyOneMore(start, ToVisits(keys[..n], calls, answers, digest), v);
  }

  lemma ToVisitsOneMore(keys: seq<Key>, n: nat, calls: nat, answers: Answers, digest: Digest)
    requires n < |keys| && AllRead(calls + n + 1, answers)
    ensures ToVisits(keys[..n + 1], calls, answers, digest)
         == ToVisits(keys[..n], calls, answers, digest)
            + [Visit(keys[n], Observe(Answer(answers, calls + n).value, digest))]
  {
  }

  /** One turn of the inner loop. */
  method VisitNext(configData: CD.ConfigData, k: Key, ghost start: Book, ghost keys: seq<Key>, n: nat, answers: Answers,
                   calls: nat, digest: Digest)
      returns (read: bool)
    requires configData.Valid() && n < |keys| && keys[n] == k
    requires Reached(configData.View(), start, keys, n, calls, answers, digest)
    modifies configData.Repr
    ensures configData.Valid() && fresh(configData.Repr - old(configData.Repr))
    ensures read <==> Answer(answers, calls + n).Some?
    ensures read ==> Reached(configData.View(), start, keys, n + 1, calls, answers, digest)
  {
    ghost var now := configData.View();
    read := VisitSecret(configData, k, Answer(answers, calls + n), digest);
    if read {
      OneMoreVisit(now, start, keys, n, calls, answers, digest);
    }
  }

  /** The inner loop: visits the secrets of one namespace until a read fails. */
  method HashNamespace(configData: CD.ConfigData, ns: string, names: seq<string>, answers: Answers, calls: nat,
                       digest: Digest)
      returns (done: nat)
    requires configData.Valid() && AllRead(calls, answers)
    modifies configData.Repr
    ensures configData.Valid() && fresh(configData.Repr - old(configData.Repr))
    ensures done <= |names| && AllRead(calls + done, answers)
    ensures done < |names| ==> Answer(answers, calls + done).None?
    ensures done == |names| ==>
      configData.View() == Apply(old(configData.View()), ToVisits(KeysIn(ns, names), calls, answers, digest))
  {
    ghost var keys := KeysIn(ns, names);
    ghost var book := configData.View();
    done := 0;
    ReachedEnds(book, book, keys, calls, answers, digest);
    while done < |names|
      invariant configData.Valid() && fresh(configData.Repr - old(configData.Repr))
      invariant Reached(configData.View(), book, keys, done, calls, answers, digest)
    {
      var read := VisitNext(configData, Key(ns, names[done]), book, keys, done, answers, calls, digest);
      if !read {
        return;
      }
      done := done + 1;
    }
    ReachedEnds(configData.View(), book, keys, calls, answers, digest);
  }

  /** A read that fails belongs to every way of finishing the walk, so the whole pass counts as failed. */
  lemma ReadFailed(order: seq<string>, rest: set<string>, ns: string, i: nat, watch: Watch, calls: nat,
                   answers: Answers)
      returns (full: seq<string>)
    requires Walked(order, rest, watch, calls, answers) && ns in rest && i < |watch[ns]|
    requires Answer(answers, calls + i).None?
    ensures IsEnumeration(full, watch.Keys) && forall q :: q in full ==> q in watch
    ensures !AllRead(|Flatten(full, watch)|, answers) && Flatten(full, watch) != []
  {
    var next := order + [ns];
    assert ns !in Elements(order);
    assert Elements(next) == Elements(order) + {ns};
    full := CompleteOrder(next, watch.Keys);
    assert forall q :: q in full ==> q in Elements(full);
    assert full == next + full[|next|..];
    FlattenExtends(next, full[|next|..], watch);
    assert next[..|next| - 1] == order;
  }
}
