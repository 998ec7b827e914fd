/**
 The hash ledger as a value: buckets (namespaces) of rows (secrets), each row carrying the history of the hashes seen
 for that secret. The code searches it by linear scan; this module says what the scans and the updates mean and relates
 the nested sequences to a finite map from (namespace, name) to record.
 */
module Ledger {
  import opened Common
  import opened Clock

  datatype Key = Key(namespace: string, name: string)

  datatype Record = Record(created: TimeText, lastModified: TimeText, history: seq<string>, kind: string)

  datatype Row = Row(name: string, record: Record)

  datatype Bucket = Bucket(name: string, rows: seq<Row>)

  type Book = seq<Bucket>

  /** What one read of a secret contributes: the hash of its data and three attributes. */
  datatype Observation = Observation(hash: string, created: TimeText, lastModified: TimeText, kind: string)

  datatype Visit = Visit(key: Key, seen: Observation)

  // ---------- linear scans ----------

  function RowIndex(rows: seq<Row>, name: string): (j: nat)
    ensures j <= |rows|
    ensures j < |rows| ==> rows[j].name == name
    ensures forall h :: 0 <= h < j ==> rows[h].name != name
  {
    if rows == [] || rows[0].name == name then 0 else 1 + RowIndex(rows[1..], name)
  }

  predicate Holds(bucket: Bucket, k: Key) {
    bucket.name == k.namespace && RowIndex(bucket.rows, k.name) < |bucket.rows|
  }

  /** The first bucket in which the key is found, or |b|; a bucket of the right name without the row is passed over. */
  function HolderIndex(b: Book, k: Key): (i: nat)
    ensures i <= |b|
    ensures i < |b| ==> Holds(b[i], k)
    ensures forall h :: 0 <= h < i ==> !Holds(b[h], k)
  {
    if b == [] || Holds(b[0], k) then 0 else 1 + HolderIndex(b[1..], k)
  }

  /** The first bucket of that name, or |b|. */
  function HomeIndex(b: Book, namespace: string): (i: nat)
    ensures i <= |b|
    ensures i < |b| ==> b[i].name == namespace
    ensures forall h :: 0 <= h < i ==> b[h].name != namespace
  {
    if b == [] || b[0].name == namespace then 0 else 1 + HomeIndex(b[1..], namespace)
  }

  function Lookup(b: Book, k: Key): Option<Record> {
    var i := HolderIndex(b, k);
    if i < |b| then Some(b[i].rows[RowIndex(b[i].rows, k.name)].record) else None
  }

  // ---------- updates ----------

  /** Overwrites the record the scan for `k` finds. */
  function Put(b: Book, k: Key, r: Record): Book
    requires Lookup(b, k).Some?
  {
    var i := HolderIndex(b, k);
    var j := RowIndex(b[i].rows, k.name);
    b[i := Bucket(b[i].name, b[i].rows[j := Row(k.name, r)])]
  }

  /** Appends a row to the first bucket of the namespace, or a new bucket when there is none. */
  function Insert(b: Book, k: Key, r: Record): Book {
    var i := HomeIndex(b, k.namespace);
    if i < |b| then b[i := Bucket(b[i].name, b[i].rows + [Row(k.name, r)])]
    else b + [Bucket(k.namespace, [Row(k.name, r)])]
  }

  function Merge(r: Record, o: Observation): Record {
    r.(lastModified := o.lastModified,
       history := if o.hash in r.history then r.history else r.history + [o.hash])
  }

  function Absorb(prev: Option<Record>, o: Observation): Record {
    match prev
    case None => Record(o.created, o.lastModified, [o.hash], o.kind)
    case Some(r) => Merge(r, o)
  }

  function Upsert(b: Book, v: Visit): Book {
    var prev := Lookup(b, v.key);
    if prev.Some? then Put(b, v.key, Absorb(prev, v.seen)) else Insert(b, v.key, Absorb(prev, v.seen))
  }

  function Apply(b: Book, visits: seq<Visit>): Book {
    if visits == [] then b
    else Upsert(Apply(b, visits[..|visits| - 1]), visits[|visits| - 1])
  }

  // ---------- the map behind the sequences ----------

  function KeysOf(b: Book): set<Key> {
    set i, j | 0 <= i < |b| && 0 <= j < |b[i].rows| :: Key(b[i].name, b[i].rows[j].name)
  }

  lemma LookupFindsKeys(b: Book, k: Key)
    ensures Lookup(b, k).Some? <==> k in KeysOf(b)
  {
    if k in KeysOf(b) {
      var i, j :| 0 <= i < |b| && 0 <= j < |b[i].rows| && Key(b[i].name, b[i].rows[j].name) == k;
      assert Holds(b[i], k);
    }
  }

  function AsMap(b: Book): (m: map<Key, Record>)
    ensures forall k :: k in m <==> Lookup(b, k).Some?
    ensures forall k :: k in m ==> m[k] == Lookup(b, k).value
  {
    assert forall k :: k in KeysOf(b) <==> Lookup(b, k).Some? by {
      forall k { LookupFindsKeys(b, k); }
    }
    map k | k in KeysOf(b) :: Lookup(b, k).value
  }

  function Get(m: map<Key, Record>, k: Key): Option<Record> {
    if k in m then Some(m[k]) else None
  }

  /** No two rows share a (namespace, name) pair. */
  ghost predicate Unique(b: Book) {
    forall i, j, i', j' |
      && 0 <= i < |b| && 0 <= j < |b[i].rows| && 0 <= i' < |b| && 0 <= j' < |b[i'].rows|
      && b[i].name == b[i'].name && b[i].rows[j].name == b[i'].rows[j'].name
      :: i == i' && j == j'
  }

  lemma PutLookup(b: Book, k: Key, r: Record, q: Key)
    requires Lookup(b, k).Some?
    ensures Lookup(Put(b, k, r), q) == if q == k then Some(r) else Lookup(b, q)
  {
    var i := HolderIndex(b, k);
    var c := Put(b, k, r);
    assert forall h :: 0 <= h < |b| && h != i ==> c[h] == b[h];
    assert forall h :: 0 <= h < |b| ==> RowIndex(c[h].rows, q.name) == RowIndex(b[h].rows, q.name) by {
      RowIndexUpdate(b[i].rows, RowIndex(b[i].rows, k.name), Row(k.name, r), q.name);
    }
    assert forall h :: 0 <= h < |b| ==> (Holds(c[h], q) <==> Holds(b[h], q));
    assert HolderIndex(c, q) == HolderIndex(b, q);
  }

  lemma RowIndexUpdate(rows: seq<Row>, j: nat, row: Row, name: string)
    requires j < |rows| && rows[j].name == row.name
    ensures RowIndex(rows[j := row], name) == RowIndex(rows, name)
  {
    assert forall h :: 0 <= h < |rows| ==> rows[j := row][h].name == rows[h].name;
  }

  lemma InsertLookup(b: Book, k: Key, r: Record, q: Key)
    requires Lookup(b, k).None?
    ensures Lookup(Insert(b, k, r), q) == if q == k then Some(r) else Lookup(b, q)
  {
    var i := HomeIndex(b, k.namespace);
    var c := Insert(b, k, r);
    assert forall h :: 0 <= h < |b| && h != i ==> c[h] == b[h];
    if i < |b| {
      RowIndexAppend(b[i].rows, Row(k.name, r), q.name);
      assert !Holds(b[i], k);
    } else {
      RowIndexAppend([], Row(k.name, r), q.name);
      assert [] + [Row(k.name, r)] == [Row(k.name, r)];
    }
    if q == k {
      assert Holds(c[i], q);
      assert HolderIndex(c, q) == i;
    } else {
      assert forall h :: 0 <= h < |b| ==> (Holds(c[h], q) <==> Holds(b[h], q));
      if i == |b| {
        assert !Holds(c[i], q);
      }
      if HolderIndex(b, q) < |b| {
        assert HolderIndex(c, q) == HolderIndex(b, q);
      } else {
        assert HolderIndex(c, q) == |c|;
      }
    }
  }

  lemma RowIndexAppend(rows: seq<Row>, row: Row, name: string)
    ensures RowIndex(rows + [row], name)
         == if RowIndex(rows, name) < |rows| then RowIndex(rows, name)
            else if row.name == name then |rows|
            else |rows| + 1
  {
    var all := rows + [row];
    var at, at' := RowIndex(rows, name), RowIndex(all, name);
    assert forall h :: 0 <= h < |rows| ==> all[h] == rows[h];
    assert all[|rows|] == row;
    if at < |rows| {
      assert all[at].name == name;
    }
  }

  /** One upsert on the nested sequences is one update of the map, and touches no other key. */
  lemma UpsertUpdatesMap(b: Book, v: Visit)
    ensures AsMap(Upsert(b, v)) == AsMap(b)[v.key := Absorb(Get(AsMap(b), v.key), v.seen)]
  {
    forall q
      ensures Lookup(Upsert(b, v), q) == if q == v.key then Some(Absorb(Lookup(b, q), v.seen)) else Lookup(b, q)
    {
      UpsertLookup(b, v, q);
    }
    MapFromLookups(Upsert(b, v), AsMap(b)[v.key := Absorb(Get(AsMap(b), v.key), v.seen)]);
  }

  lemma MapFromLookups(b: Book, m: map<Key, Record>)
    requires forall q :: Lookup(b, q) == Get(m, q)
    ensures AsMap(b) == m
  {
    assert forall q :: q in AsMap(b) <==> Lookup(b, q).Some?;
    assert forall q :: q in m <==> Lookup(b, q).Some?;
  }

  lemma UpsertLookup(b: Book, v: Visit, q: Key)
    ensures Lookup(Upsert(b, v), q) == if q == v.key then Some(Absorb(Lookup(b, q), v.seen)) else Lookup(b, q)
  {
    var r := Absorb(Lookup(b, v.key), v.seen);
    if Lookup(b, v.key).Some? {
      PutLookup(b, v.key, r, q);
    } else {
      InsertLookup(b, v.key, r, q);
    }
  }

  /** Upserts keep keys unique, so a book grown from an empty one shows each key in exactly one row. */
  lemma UpsertKeepsUnique(b: Book, v: Visit)
    requires Unique(b)
    ensures Unique(Upsert(b, v))
  {
    var r := Absorb(Lookup(b, v.key), v.seen);
    if Lookup(b, v.key).Some? {
      PutKeepsUnique(b, v.key, r);
    } else {
      InsertKeepsUnique(b, v.key, r);
    }
  }

  lemma PutKeepsUnique(b: Book, k: Key, r: Record)
    requires Unique(b) && Lookup(b, k).Some?
    ensures Unique(Put(b, k, r))
  {
    var c := Put(b, k, r);
    assert forall i :: 0 <= i < |b| ==> c[i].name == b[i].name && |c[i].rows| == |b[i].rows|;
    assert forall i, j :: 0 <= i < |b| && 0 <= j < |b[i].rows| ==> c[i].rows[j].name == b[i].rows[j].name;
  }

  lemma InsertKeepsUnique(b: Book, k: Key, r: Record)
    requires Unique(b) && Lookup(b, k).None?
    ensures Unique(Insert(b, k, r))
  {
    var c := Insert(b, k, r);
    var at := HomeIndex(b, k.namespace);
    LookupFindsKeys(b, k);
    forall i, j | 0 <= i < |b| && 0 <= j < |b[i].rows|
      ensures b[i].name != k.namespace || b[i].rows[j].name != k.name
    {
      assert Key(b[i].name, b[i].rows[j].name) in KeysOf(b);
    }
    var last := if at < |b| then |b[at].rows| else 0;
    assert c[at].name == k.namespace && |c[at].rows| == last + 1 && c[at].rows[last].name == k.name;
    assert forall i :: 0 <= i < |c| && i != at ==> i < |b| && c[i] == b[i];
    assert forall j :: 0 <= j < last ==> c[at].rows[j] == b[at].rows[j];
  }

  /** Each namespace has one bucket. */
  ghost predicate OneBucketEach(b: Book) {
    forall i, j :: 0 <= i < j < |b| ==> b[i].name != b[j].name
  }

  /** Rows stay where they are, and a new one comes last: in its bucket, or in a bucket of its own at the end. */
  ghost predicate KeepsPlaces(b: Book, c: Book) {
    && |b| <= |c| <= |b| + 1
    && (forall i :: 0 <= i < |b| ==> c[i].name == b[i].name && |b[i].rows| <= |c[i].rows|)
    && (forall i, j :: 0 <= i < |b| && 0 <= j < |b[i].rows| ==> c[i].rows[j].name == b[i].rows[j].name)
  }

  /** An upsert moves no row, and opens a bucket only for a namespace that has none. */
  lemma UpsertKeepsPlaces(b: Book, v: Visit)
    ensures KeepsPlaces(b, Upsert(b, v))
    ensures OneBucketEach(b) ==> OneBucketEach(Upsert(b, v))
  {
    var c := Upsert(b, v);
    var at := if Lookup(b, v.key).Some? then HolderIndex(b, v.key) else HomeIndex(b, v.key.namespace);
    assert forall i :: 0 <= i < |b| && i != at ==> c[i] == b[i];
    assert forall i :: 0 <= i < |b| ==> c[i].name == b[i].name;
    assert |c| == |b| + 1 ==> at == |b| && c[|b|].name == v.key.namespace;
  }

  lemma {:induction false} ApplyKeepsBuckets(b: Book, visits: seq<Visit>)
    requires OneBucketEach(b)
    ensures OneBucketEach(Apply(b, visits))
  {
    if visits == [] {
    } else {
      var n := |visits| - 1;
      ApplyKeepsBuckets(b, visits[..n]);
      UpsertKeepsPlaces(Apply(b, visits[..n]), visits[n]);
    }
  }

  /** In a book with unique keys the map shows every row: nothing is hidden behind an earlier row. */
  lemma MapShowsEveryRow(b: Book, i: nat, j: nat)
    requires Unique(b)
    requires i < |b| && j < |b[i].rows|
    ensures Lookup(b, Key(b[i].name, b[i].rows[j].name)) == Some(b[i].rows[j].record)
  {
    var k := Key(b[i].name, b[i].rows[j].name);
    assert Holds(b[i], k);
    var i' := HolderIndex(b, k);
    var j' := RowIndex(b[i'].rows, k.name);
    assert b[i'].name == b[i].name && b[i'].rows[j'].name == b[i].rows[j].name;
  }

  // ---------- a whole list of visits ----------

  function SeenOf(visits: seq<Visit>, k: Key): seq<Observation> {
    if visits == [] then []
    else
      SeenOf(visits[..|visits| - 1], k)
      + (var v := visits[|visits| - 1]; if v.key == k then [v.seen] else [])
  }

  function AbsorbAll(prev: Option<Record>, seen: seq<Observation>): Option<Record> {
    if seen == [] then prev
    else Some(Absorb(AbsorbAll(prev, seen[..|seen| - 1]), seen[|seen| - 1]))
  }

  lemma AbsorbOneMore(prev: Option<Record>, seen: seq<Observation>, o: Observation)
    ensures AbsorbAll(prev, seen + [o]) == Some(Absorb(AbsorbAll(prev, seen), o))
  {
    assert (seen + [o])[..|seen + [o]| - 1] == seen;
  }

  /** After any list of visits the entry of a key depends only on what was seen of that key, in order. */
  lemma {:induction false} ApplyLookup(b: Book, visits: seq<Visit>, k: Key)
    ensures Lookup(Apply(b, visits), k) == AbsorbAll(Lookup(b, k), SeenOf(visits, k))
  {
    if visits == [] {
    } else {
      var n := |visits| - 1;
      var before := SeenOf(visits[..n], k);
      ApplyLookup(b, visits[..n], k);
      UpsertLookup(Apply(b, visits[..n]), visits[n], k);
      AbsorbOneMore(Lookup(b, k), before, visits[n].seen);
      assert before + [] == before;
    }
  }

  lemma ApplyLast(b: Book, visits: seq<Visit>, q: Key)
    requires visits != []
    ensures
      var n := |visits| - 1;
      var prev := Lookup(Apply(b, visits[..n]), q);
      Lookup(Apply(b, visits), q) == if q == visits[n].key then Some(Absorb(prev, visits[n].seen)) else prev
  {
    UpsertLookup(Apply(b, visits[..|visits| - 1]), visits[|visits| - 1], q);
  }

  lemma {:induction false} ApplyKeepsUnique(b: Book, visits: seq<Visit>)
    requires Unique(b)
    ensures Unique(Apply(b, visits))
  {
    if visits == [] {
    } else {
      var n := |visits| - 1;
      ApplyKeepsUnique(b, visits[..n]);
      UpsertKeepsUnique(Apply(b, visits[..n]), visits[n]);
    }
  }

  lemma ApplyOneMore(b: Book, visits: seq<Visit>, v: Visit)
    ensures Apply(b, visits + [v]) == Upsert(Apply(b, visits), v)
  {
    assert (visits + [v])[..|visits + [v]| - 1] == visits;
  }

  lemma {:induction false} ApplyConcat(b: Book, xs: seq<Visit>, ys: seq<Visit>)
    ensures Apply(b, xs + ys) == Apply(Apply(b, xs), ys)
  {
    if ys == [] {
      assert xs + ys == xs;
    } else {
      var n := |ys| - 1;
      assert (xs + ys)[..|xs + ys| - 1] == xs + ys[..n];
      ApplyConcat(b, xs, ys[..n]);
    }
  }

  // ---------- one pass over a fixed snapshot of the cluster ----------

  predicate Reads(snapshot: map<Key, Observation>, visits: seq<Visit>) {
    forall v :: v in visits ==> v.key in snapshot && v.seen == snapshot[v.key]
  }

  function Visited(visits: seq<Visit>): set<Key> {
    set v | v in visits :: v.key
  }

  lemma AbsorbTwice(prev: Option<Record>, o: Observation)
    ensures Absorb(Some(Absorb(prev, o)), o) == Absorb(prev, o)
  {
  }

  lemma {:induction false} AbsorbRepeated(prev: Option<Record>, seen: seq<Observation>, o: Observation)
    requires seen != []
    requires forall s :: s in seen ==> s == o
    ensures AbsorbAll(prev, seen) == Some(Absorb(prev, o))
  {
    var n := |seen| - 1;
    assert seen[n] in seen;
    if n == 0 {
      assert seen[..n] == [];
    } else {
      assert forall s :: s in seen[..n] ==> s in seen;
      AbsorbRepeated(prev, seen[..n], o);
      AbsorbTwice(prev, o);
    }
  }

  lemma {:induction false} SeenFromSnapshot(snapshot: map<Key, Observation>, visits: seq<Visit>, k: Key)
    requires Reads(snapshot, visits)
    ensures SeenOf(visits, k) != [] <==> k in Visited(visits)
    ensures forall s :: s in SeenOf(visits, k) ==> k in snapshot && s == snapshot[k]
  {
    if visits == [] {
    } else {
      var n := |visits| - 1;
      assert visits == visits[..n] + [visits[n]];
      assert forall v :: v in visits[..n] ==> v in visits;
      SeenFromSnapshot(snapshot, visits[..n], k);
      assert visits[n] in visits;
      assert Visited(visits) == Visited(visits[..n]) + {visits[n].key};
    }
  }

  /** The map a pass over a snapshot produces, said without any order of visits. */
  function PassMap(m: map<Key, Record>, snapshot: map<Key, Observation>, watched: set<Key>): map<Key, Record>
    requires watched <= snapshot.Keys
  {
    map k | k in m.Keys + watched :: if k in watched then Absorb(Get(m, k), snapshot[k]) else m[k]
  }

  /** Every order of visits and every duplication in it gives the same map. */
  lemma PassIsConfluent(b: Book, snapshot: map<Key, Observation>, visits: seq<Visit>)
    requires Reads(snapshot, visits)
    ensures Visited(visits) <= snapshot.Keys
    ensures AsMap(Apply(b, visits)) == PassMap(AsMap(b), snapshot, Visited(visits))
  {
    assert Visited(visits) <= snapshot.Keys;
    var expected := PassMap(AsMap(b), snapshot, Visited(visits));
    forall k
      ensures Lookup(Apply(b, visits), k) == Get(expected, k)
    {
      ApplyLookup(b, visits, k);
      SeenFromSnapshot(snapshot, visits, k);
      if k in Visited(visits) {
        AbsorbRepeated(Lookup(b, k), SeenOf(visits, k), snapshot[k]);
      }
    }
    MapFromLookups(Apply(b, visits), expected);
  }

  lemma PutSame(b: Book, k: Key)
    requires Lookup(b, k).Some?
    ensures Put(b, k, Lookup(b, k).value) == b
  {
    var i := HolderIndex(b, k);
    var rows := b[i].rows;
    var j := RowIndex(rows, k.name);
    assert rows[j := Row(k.name, rows[j].record)] == rows;
    assert b[i := Bucket(b[i].name, rows)] == b;
  }

  /** A second pass over the same snapshot leaves the layout as it is, down to the position of every row. */
  lemma {:induction false} SecondPassIsIdle(b: Book, snapshot: map<Key, Observation>,
                                            first: seq<Visit>, second: seq<Visit>)
    requires Reads(snapshot, first) && Reads(snapshot, second)
    requires Visited(second) <= Visited(first)
    ensures Apply(Apply(b, first), second) == Apply(b, first)
  {
    if second == [] {
    } else {
      var n := |second| - 1;
      assert forall v :: v in second[..n] ==> v in second;
      assert Visited(second[..n]) <= Visited(second);
      SecondPassIsIdle(b, snapshot, first, second[..n]);
      var v := second[n];
      assert v in second;
      assert v.key in Visited(second);
      ApplyLookup(b, first, v.key);
      SeenFromSnapshot(snapshot, first, v.key);
      AbsorbRepeated(Lookup(b, v.key), SeenOf(first, v.key), v.seen);
      AbsorbTwice(Lookup(b, v.key), v.seen);
      PutSame(Apply(b, first), v.key);
    }
  }
}
