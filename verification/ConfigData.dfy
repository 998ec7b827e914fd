/**
 The decoded ledger as the code holds it: objects that are scanned, appended to, and edited in place through the
 reference a scan returns. Every method is tied to the value-level ledger by `View`.
 */
module ConfigData {
  import opened Clock
  import opened Ledger

  class Secret {
    const name: string
    const created: TimeText
    var lastModified: TimeText
    var history: seq<string>
    const kind: string
    ghost var bucket: nat  // the place of this object in the structure that holds it
    ghost var row: nat

    function View(): Row
      reads this
    {
      Row(name, Record(created, lastModified, history, kind))
    }

    constructor (content: Row)
      ensures View() == content
    {
      name, created, kind := content.name, content.record.created, content.record.kind;
      lastModified, history := content.record.lastModified, content.record.history;
    }

    method UpdateOrAppendSecretData(newHash: string, newLastModified: TimeText)
      modifies this`lastModified, this`history
      ensures View() == Row(name, Merge(old(View().record), Observation(newHash, created, newLastModified, kind)))
    {
      var found := false;
      var h := 0;
      while h < |history|
        invariant 0 <= h <= |history|
        invariant !found ==> newHash !in history[..h]
        invariant found ==> newHash in history
        invariant unchanged(this)
      {
        if history[h] == newHash {
          found := true;
          break;
        }
        h := h + 1;
      }
      assert !found ==> history[..h] == history;
      if !found {
        history := history + [newHash];
      }
      lastModified := newLastModified;
    }
  }

  function Rows(secrets: seq<Secret>): (rows: seq<Row>)
    reads secrets
    ensures |rows| == |secrets|
    ensures forall j :: 0 <= j < |secrets| ==> rows[j] == secrets[j].View()
  {
    seq(|secrets|, j requires 0 <= j < |secrets| reads secrets => secrets[j].View())
  }

  class Namespace {
    const name: string
    var secrets: seq<Secret>
    ghost var place: nat

    constructor (name: string, secrets: seq<Secret>)
      ensures this.name == name && this.secrets == secrets
    {
      this.name, this.secrets := name, secrets;
    }
  }

  class ConfigData {
    var namespaces: seq<Namespace>
    ghost var Repr: set<object>

    /** Each object knows its place, so none occurs twice and an edit in place shows up in exactly one row. */
    ghost predicate Valid()
      reads this, Repr
    {
      && this in Repr
      && (forall i | 0 <= i < |namespaces| :: namespaces[i] in Repr)
      && (forall i | 0 <= i < |namespaces| :: namespaces[i].place == i)
      && (forall i, j | 0 <= i < |namespaces| && 0 <= j < |namespaces[i].secrets| ::
            namespaces[i].secrets[j] in Repr)
      && (forall i, j | 0 <= i < |namespaces| && 0 <= j < |namespaces[i].secrets| ::
            namespaces[i].secrets[j].bucket == i && namespaces[i].secrets[j].row == j)
    }

    function View(): (b: Book)
      requires Valid()
      reads this, Repr
      ensures |b| == |namespaces|
      ensures forall i :: 0 <= i < |b| ==> b[i] == Bucket(namespaces[i].name, Rows(namespaces[i].secrets))
    {
      seq(|namespaces|,
          i requires 0 <= i < |namespaces| && Valid() reads this, Repr
          => Bucket(namespaces[i].name, Rows(namespaces[i].secrets)))
    }

    /** A zero value: no namespaces. */
    constructor ()
      ensures Valid() && View() == [] && fresh(Repr)
    {
      namespaces := [];
      Repr := {this};
    }

    /** Decoding builds fresh objects for every namespace and secret of the stored value. */
    constructor Decode(b: Book)
      ensures Valid() && View() == b && fresh(Repr)
    {
      namespaces := [];
      Repr := {this};
      new;
      for i := 0 to |b|
        invariant |namespaces| == i
        invariant Valid() && fresh(Repr)
        invariant View() == b[..i]
      {
        DecodeBucket(b[i]);
        assert b[..i] + [b[i]] == b[..i + 1];
      }
      assert b[..|b|] == b;
    }

    method DecodeBucket(bucket: Bucket)
      requires Valid()
      modifies this
      ensures Valid() && fresh(Repr - old(Repr))
      ensures View() == old(View()) + [bucket]
    {
      OpenBucket(bucket.name);
      for j := 0 to |bucket.rows|
        invariant Valid() && fresh(Repr - old(Repr))
        invariant View() == old(View()) + [Bucket(bucket.name, bucket.rows[..j])]
        invariant fresh(namespaces[|namespaces| - 1])
      {
        AppendSecret(|namespaces| - 1, bucket.rows[j]);
        assert bucket.rows[..j] + [bucket.rows[j]] == bucket.rows[..j + 1];
      }
      assert bucket.rows[..|bucket.rows|] == bucket.rows;
    }

    method OpenBucket(name: string)
      requires Valid()
      modifies this
      ensures Valid() && fresh(Repr - old(Repr))
      ensures View() == old(View()) + [Bucket(name, [])]
      ensures |namespaces| == |old(namespaces)| + 1 && fresh(namespaces[|namespaces| - 1])
    {
      ghost var before := View();
      var n := new Namespace(name, []);
      n.place := |namespaces|;
      namespaces := namespaces + [n];
      Repr := Repr + {n};
      assert forall i | 0 <= i < |before| :: Rows(namespaces[i].secrets) == before[i].rows;
    }

    method AppendSecret(x: nat, content: Row)
      requires Valid() && x < |namespaces|
      modifies this`Repr, namespaces[x]
      ensures Valid() && fresh(Repr - old(Repr))
      ensures View() == old(View())[x := Bucket(old(View())[x].name, old(View())[x].rows + [content])]
    {
      ghost var before := View();
      var s := new Secret(content);
      s.bucket, s.row := x, |namespaces[x].secrets|;
      AttachSecret(x, s);
      assert forall i | 0 <= i < |namespaces| && i != x :: Rows(namespaces[i].secrets) == before[i].rows;
      assert Rows(namespaces[x].secrets) == before[x].rows + [content];
    }

    method AttachSecret(x: nat, s: Secret)
      requires Valid() && x < |namespaces| && s !in Repr
      requires s.bucket == x && s.row == |namespaces[x].secrets|
      modifies this`Repr, namespaces[x]
      ensures Valid() && Repr == old(Repr) + {s}
      ensures namespaces[x].secrets == old(namespaces[x].secrets) + [s]
      ensures forall i :: 0 <= i < |namespaces| && i != x ==> namespaces[i].secrets == old(namespaces[i].secrets)
      ensures forall i :: 0 <= i < |namespaces| ==> namespaces[i].place == i
    {
      var n := namespaces[x];
      n.secrets := n.secrets + [s];
      Repr := Repr + {s};
    }

    /** Linear scan: every bucket of that name is searched until the row is found. */
    method SecretDataExists(k: Key) returns (found: Secret?, ghost i: nat, ghost j: nat)
      requires Valid()
      ensures found == null <==> Lookup(View(), k).None?
      ensures found != null ==>
        && i == HolderIndex(View(), k) && i < |namespaces|
        && j == RowIndex(View()[i].rows, k.name) && j < |namespaces[i].secrets|
        && namespaces[i].secrets[j] == found
    {
      var x := 0;
      while x < |namespaces|
        invariant 0 <= x <= |namespaces|
        invariant forall h :: 0 <= h < x ==> !Holds(View()[h], k)
      {
        var ns := namespaces[x];
        if ns.name == k.namespace {
          var y := 0;
          while y < |ns.secrets|
            invariant 0 <= y <= |ns.secrets|
            invariant forall h :: 0 <= h < y ==> View()[x].rows[h].name != k.name
          {
            if ns.secrets[y].name == k.name {
              assert View()[x].rows[y].name == k.name;
              assert RowIndex(View()[x].rows, k.name) == y;
              assert Holds(View()[x], k);
              assert HolderIndex(View(), k) == x;
              return ns.secrets[y], x, y;
            }
            assert View()[x].rows[y].name != k.name;
            y := y + 1;
          }
          assert RowIndex(View()[x].rows, k.name) == |ns.secrets|;
        }
        x := x + 1;
      }
      assert HolderIndex(View(), k) == |namespaces|;
      return null, 0, 0;
    }

    /** Appends to the first bucket of the namespace, or opens a new bucket; every other row stays as it is. */
    method AddSecretData(k: Key, newHash: string, created: TimeText, lastModified: TimeText, kind: string)
      requires Valid()
      modifies this, namespaces
      ensures Valid() && fresh(Repr - old(Repr))
      ensures View() == Insert(old(View()), k, Record(created, lastModified, [newHash], kind))
    {
      var newSecret := Row(k.name, Record(created, lastModified, [newHash], kind));
      ghost var before := View();
      var x := 0;
      while x < |namespaces|
        invariant 0 <= x <= |namespaces|
        invariant forall h :: 0 <= h < x ==> before[h].name != k.namespace
        invariant Valid() && View() == before && Repr == old(Repr) && namespaces == old(namespaces)
      {
        if namespaces[x].name == k.namespace {
          assert HomeIndex(before, k.namespace) == x;
          AppendSecret(x, newSecret);
          return;
        }
        assert before[x].name != k.namespace;
        x := x + 1;
      }
      assert HomeIndex(before, k.namespace) == |before|;
      OpenBucket(k.namespace);
      AppendSecret(x, newSecret);
      assert [] + [newSecret] == [newSecret];
    }

    /** The edit through the reference a scan returned changes one row of the view and nothing else. */
    method EditSecret(found: Secret, ghost i: nat, ghost j: nat, newHash: string, newLastModified: TimeText)
      requires Valid() && i < |namespaces| && j < |namespaces[i].secrets| && namespaces[i].secrets[j] == found
      modifies found`lastModified, found`history
      ensures Valid()
      ensures
        var row := old(View())[i].rows[j];
        var seen := Observation(newHash, row.record.created, newLastModified, row.record.kind);
        View() == old(View())[i := Bucket(old(View())[i].name,
                                          old(View())[i].rows[j := Row(row.name, Merge(row.record, seen))])]
    {
      ghost var before := View();
      found.UpdateOrAppendSecretData(newHash, newLastModified);
      assert forall i', j' | 0 <= i' < |namespaces| && 0 <= j' < |namespaces[i'].secrets| && !(i' == i && j' == j) ::
          namespaces[i'].secrets[j'] != found;
      assert forall i' | 0 <= i' < |namespaces| && i' != i :: Rows(namespaces[i'].secrets) == before[i'].rows;
      assert Rows(namespaces[i].secrets) == before[i].rows[j := found.View()];
    }

    /** One visit of the hashing loop: find and edit, or add. */
    method RecordVisit(v: Visit)
      requires Valid()
      modifies Repr
      ensures Valid() && fresh(Repr - old(Repr))
      ensures View() == Upsert(old(View()), v)
    {
      var existing, i, j := SecretDataExists(v.key);
      if existing != null {
        EditSecret(existing, i, j, v.seen.hash, v.seen.lastModified);
      } else {
        AddSecretData(v.key, v.seen.hash, v.seen.created, v.seen.lastModified, v.seen.kind);
      }
    }
  }
}
