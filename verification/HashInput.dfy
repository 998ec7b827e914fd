/**
 What is fed to the hash of a secret: the values in ascending order of their keys, keys and lengths left out. The
 digest itself is a parameter.
 */
module HashInput {
  import opened Common

  type Data = map<string, seq<bv8>>

  /** Lexicographic order of key names. */
  predicate Less(a: string, b: string) {
    b != [] && (a == [] || a[0] < b[0] || (a[0] == b[0] && Less(a[1..], b[1..])))
  }

  lemma LessIrreflexive(a: string)
    ensures !Less(a, a)
  {
  }

  lemma LessTotal(a: string, b: string)
    ensures a == b || Less(a, b) || Less(b, a)
  {
    if a != [] && b != [] && a[0] == b[0] {
      LessTotal(a[1..], b[1..]);
      assert a == [a[0]] + a[1..] && b == [b[0]] + b[1..];
    }
  }

  lemma LessTransitive(a: string, b: string, c: string)
    requires Less(a, b) && Less(b, c)
    ensures Less(a, c)
  {
    if a != [] && a[0] == b[0] && b[0] == c[0] {
      LessTransitive(a[1..], b[1..], c[1..]);
    }
  }

  /** The names agree before `n`, and there the first one ends or has the smaller character. */
  predicate DiffersAt(a: string, b: string, n: nat) {
    && n <= |a| && n < |b| && a[..n] == b[..n]
    && (n < |a| ==> a[n] < b[n])
  }

  /** One name is less than another exactly when it is at the first place where they differ. */
  lemma {:induction false} LessIsFirstDifference(a: string, b: string)
    ensures Less(a, b) <==> exists n: nat :: DiffersAt(a, b, n)
  {
    if b == [] {
    } else if a == [] || a[0] < b[0] {
      assert DiffersAt(a, b, 0);
    } else if a[0] == b[0] {
      LessIsFirstDifference(a[1..], b[1..]);
      if n: nat :| DiffersAt(a[1..], b[1..], n) {
        assert a[..n + 1] == [a[0]] + a[1..][..n] && b[..n + 1] == [b[0]] + b[1..][..n];
        assert DiffersAt(a, b, n + 1);
      }
      if n: nat :| DiffersAt(a, b, n) {
        assert n > 0;
        assert a[1..][..n - 1] == a[..n][1..] && b[1..][..n - 1] == b[..n][1..];
        assert DiffersAt(a[1..], b[1..], n - 1);
      }
    } else {
      forall n: nat
        ensures !DiffersAt(a, b, n)
      {
        if 0 < n <= |a| && n <= |b| {
          assert a[..n][0] == a[0] && b[..n][0] == b[0];
        }
      }
    }
  }

  ghost predicate Ascending(keys: seq<string>) {
    forall i, j :: 0 <= i < j < |keys| ==> Less(keys[i], keys[j])
  }

  /** A set of names has one ascending enumeration, whatever order it was walked in. */
  lemma {:induction false} AscendingIsUnique(xs: seq<string>, ys: seq<string>)
    requires Ascending(xs) && Ascending(ys)
    requires Elements(xs) == Elements(ys)
    ensures xs == ys
  {
    if xs == [] {
      NoElements(ys);
    } else {
      assert xs[0] in Elements(ys);
      assert ys != [];
      assert ys[0] in Elements(xs);
      if xs[0] != ys[0] {
        assert Less(xs[0], ys[0]) && Less(ys[0], xs[0]);
        LessTransitive(xs[0], ys[0], xs[0]);
        LessIrreflexive(xs[0]);
      }
      TailElements(xs);
      TailElements(ys);
      AscendingIsUnique(xs[1..], ys[1..]);
      assert xs == [xs[0]] + xs[1..] && ys == [ys[0]] + ys[1..];
    }
  }

  lemma TailElements(xs: seq<string>)
    requires Ascending(xs) && xs != []
    ensures Elements(xs[1..]) == Elements(xs) - {xs[0]}
  {
    LessIrreflexive(xs[0]);
    assert forall x :: x in xs[1..] ==> x in xs && x != xs[0];
    assert forall x :: x in xs ==> x == xs[0] || x in xs[1..];
  }

  ghost predicate IsLeast(k: string, s: set<string>) {
    k in s && forall j :: j in s && j != k ==> Less(k, j)
  }

  lemma LeastExists(s: set<string>)
    requires s != {}
    ensures exists k :: IsLeast(k, s)
  {
    var k :| k in s;
    var others := s - {k};
    assert s == others + {k};
    if others == {} {
      assert IsLeast(k, s);
    } else {
      LeastExists(others);
      var l :| IsLeast(l, others);
      LessTotal(k, l);
      if Less(k, l) {
        forall j | j in others && j != l
          ensures Less(k, j)
        {
          LessTransitive(k, l, j);
        }
        assert IsLeast(k, s);
      } else {
        assert IsLeast(l, s);
      }
    }
  }

  /** Reference definition, by repeatedly taking the least key: no enumeration and no sorting. */
  ghost function Canonical(data: Data): seq<bv8>
    decreases |data.Keys|
  {
    if data.Keys == {} then []
    else
      LeastExists(data.Keys);
      var k :| IsLeast(k, data.Keys);
      var rest := map j | j in data && j != k :: data[j];
      assert rest.Keys == data.Keys - {k};
      data[k] + Canonical(rest)
  }

  function Values(keys: seq<string>, data: Data): seq<bv8>
    requires forall k :: k in keys ==> k in data
  {
    if keys == [] then [] else data[keys[0]] + Values(keys[1..], data)
  }

  lemma ValuesAppend(keys: seq<string>, k: string, data: Data)
    requires k in data && forall j :: j in keys ==> j in data
    ensures Values(keys + [k], data) == Values(keys, data) + data[k]
  {
    if keys == [] {
      assert [] + [k] == [k];
    } else {
      assert (keys + [k])[1..] == keys[1..] + [k];
      ValuesAppend(keys[1..], k, data);
    }
  }

  lemma {:induction false} ValuesAgree(keys: seq<string>, d: Data, e: Data)
    requires forall k :: k in keys ==> k in d && k in e && d[k] == e[k]
    ensures Values(keys, d) == Values(keys, e)
  {
    if keys == [] {
    } else {
      ValuesAgree(keys[1..], d, e);
    }
  }

  /** Any ascending enumeration of the keys feeds exactly the canonical bytes. */
  lemma {:induction false} AscendingIsCanonical(keys: seq<string>, data: Data)
    requires Ascending(keys) && Elements(keys) == data.Keys
    ensures forall k :: k in keys ==> k in data
    ensures Values(keys, data) == Canonical(data)
    decreases |keys|
  {
    assert forall k :: k in keys ==> k in Elements(keys);
    if keys == [] {
    } else {
      var k := keys[0];
      assert k in data.Keys;
      forall j | j in data.Keys && j != k
        ensures Less(k, j)
      {
        assert j in keys;
      }
      assert IsLeast(k, data.Keys);
      forall l | IsLeast(l, data.Keys)
        ensures l == k
      {
        LeastIsUnique(k, l, data.Keys);
      }
      var rest := map j | j in data && j != k :: data[j];
      TailElements(keys);
      assert rest.Keys == data.Keys - {k};
      AscendingIsCanonical(keys[1..], rest);
      ValuesAgree(keys[1..], data, rest);
    }
  }

  function LengthBefore(keys: seq<string>, data: Data, i: nat): nat
    requires i <= |keys| && forall k :: k in keys ==> k in data
  {
    if i == 0 then 0 else LengthBefore(keys, data, i - 1) + |data[keys[i - 1]]|
  }

  lemma {:induction false} ValueInPlace(keys: seq<string>, data: Data, i: nat)
    requires i < |keys| && forall k :: k in keys ==> k in data
    ensures
      var at := LengthBefore(keys, data, i);
      at + |data[keys[i]]| <= |Values(keys, data)| && Values(keys, data)[at..at + |data[keys[i]]|] == data[keys[i]]
    decreases |keys|
  {
    var n := |keys| - 1;
    assert keys == keys[..n] + [keys[n]];
    ValuesAppend(keys[..n], keys[n], data);
    if i < n {
      ValueInPlace(keys[..n], data, i);
      LengthsAgree(keys, data, n, i);
    } else {
      LengthOfValues(keys[..n], data);
      LengthsAgree(keys, data, n, n);
    }
  }

  lemma {:induction false} LengthsAgree(keys: seq<string>, data: Data, n: nat, i: nat)
    requires i <= n <= |keys| && forall k :: k in keys ==> k in data
    ensures LengthBefore(keys[..n], data, i) == LengthBefore(keys, data, i)
  {
    if i > 0 {
      LengthsAgree(keys, data, n, i - 1);
    }
  }

  lemma {:induction false} LengthOfValues(keys: seq<string>, data: Data)
    requires forall k :: k in keys ==> k in data
    ensures |Values(keys, data)| == LengthBefore(keys, data, |keys|)
    decreases |keys|
  {
    if keys == [] {
    } else {
      var n := |keys| - 1;
      assert keys == keys[..n] + [keys[n]];
      ValuesAppend(keys[..n], keys[n], data);
      LengthOfValues(keys[..n], data);
      LengthsAgree(keys, data, n, n);
    }
  }

  /** In the bytes that are hashed every value stands whole, after the values of all lesser names. */
  lemma ValuesInKeyOrder(keys: seq<string>, data: Data, i: nat)
    requires Ascending(keys) && Elements(keys) == data.Keys && i < |keys|
    ensures forall k :: k in keys ==> k in data
    ensures
      var at := LengthBefore(keys, data, i);
      at + |data[keys[i]]| <= |Canonical(data)| && Canonical(data)[at..at + |data[keys[i]]|] == data[keys[i]]
    ensures |Canonical(data)| == LengthBefore(keys, data, |keys|)
  {
    AscendingIsCanonical(keys, data);
    ValueInPlace(keys, data, i);
    LengthOfValues(keys, data);
  }

  /** Insertion into an ascending sequence. */
  method InsertAscending(sorted: seq<string>, k: string) returns (r: seq<string>)
    requires Ascending(sorted) && k !in sorted
    ensures Ascending(r) && Elements(r) == Elements(sorted) + {k}
  {
    var at := |sorted|;
    while at > 0 && Less(k, sorted[at - 1])
      invariant 0 <= at <= |sorted|
      invariant forall j :: at <= j < |sorted| ==> Less(k, sorted[j])
    {
      at := at - 1;
    }
    forall i | 0 <= i < at
      ensures Less(sorted[i], k)
    {
      LessTotal(sorted[at - 1], k);
      if i < at - 1 {
        LessTransitive(sorted[i], sorted[at - 1], k);
      }
    }
    InsertedAt(sorted, at, k);
    r := sorted[..at] + [k] + sorted[at..];
  }

  lemma InsertedAt(sorted: seq<string>, at: nat, k: string)
    requires Ascending(sorted) && at <= |sorted|
    requires forall i :: 0 <= i < at ==> Less(sorted[i], k)
    requires forall j :: at <= j < |sorted| ==> Less(k, sorted[j])
    ensures
      var r := sorted[..at] + [k] + sorted[at..];
      Ascending(r) && Elements(r) == Elements(sorted) + {k}
  {
    var r := sorted[..at] + [k] + sorted[at..];
    forall i, j | 0 <= i < j < |r|
      ensures Less(r[i], r[j])
    {
      assert r[i] == if i < at then sorted[i] else if i == at then k else sorted[i - 1];
      assert r[j] == if j < at then sorted[j] else if j == at then k else sorted[j - 1];
    }
    assert sorted == sorted[..at] + sorted[at..];
    assert forall x :: x in r <==> x in sorted || x == k;
  }

  method SortStrings(keys: seq<string>) returns (sorted: seq<string>)
    requires Distinct(keys)
    ensures Ascending(sorted) && Elements(sorted) == Elements(keys)
  {
    sorted := [];
    for i := 0 to |keys|
      invariant Ascending(sorted) && Elements(sorted) == Elements(keys[..i])
    {
      assert keys[i] !in sorted by {
        assert forall x :: x in sorted ==> x in Elements(sorted);
      }
      sorted := InsertAscending(sorted, keys[i]);
      assert keys[..i + 1] == keys[..i] + [keys[i]];
      assert Elements(keys[..i + 1]) == Elements(keys[..i]) + {keys[i]};
    }
    assert keys[..|keys|] == keys;
  }

  /**
   The keys are collected in any order the map yields them, sorted, and their values written one after the other; the
   result depends on the data alone.
   */
  method CalculateHash(data: Data, digest: seq<bv8> -> string) returns (hash: string)
    ensures hash == digest(Canonical(data))
  {
    var keys: seq<string> := [];
    var rest := data.Keys;
    while rest != {}
      invariant Distinct(keys)
      invariant rest <= data.Keys
      invariant Elements(keys) == data.Keys - rest
    {
      var k :| k in rest;
      assert k !in Elements(keys);
      assert Elements(keys + [k]) == Elements(keys) + {k};
      keys := keys + [k];
      rest := rest - {k};
    }
    keys := SortStrings(keys);
    assert Elements(keys) == data.Keys;
    assert forall k :: k in keys ==> k in Elements(keys);
    var written: seq<bv8> := [];
    for i := 0 to |keys|
      invariant forall k :: k in keys ==> k in data
      invariant written == Values(keys[..i], data)
    {
      ValuesAppend(keys[..i], keys[i], data);
      assert keys[..i] + [keys[i]] == keys[..i + 1];
      written := written + data[keys[i]];
    }
    assert keys[..|keys|] == keys;
    AscendingIsCanonical(keys, data);
    hash := digest(written);
  }

  /** The names and the boundaries between values are not hashed: different data can feed the same bytes. */
  lemma RenamedKeyIsInvisible(k: string, l: string, value: seq<bv8>)
    ensures Canonical(map[k := value]) == Canonical(map[l := value]) == value
    ensures k != l ==> map[k := value] != map[l := value]
  {
    AscendingIsCanonical([k], map[k := value]);
    AscendingIsCanonical([l], map[l := value]);
    if k != l {
      assert k in map[k := value] && k !in map[l := value];
    }
  }

  /** With the same names and the same length under each name, equal bytes mean equal data. */
  lemma SameShapeIsFaithful(keys: seq<string>, d: Data, e: Data)
    requires Ascending(keys) && Elements(keys) == d.Keys == e.Keys
    requires forall k :: k in d.Keys ==> |d[k]| == |e[k]|
    ensures Canonical(d) == Canonical(e) <==> d == e
  {
    AscendingIsCanonical(keys, d);
    AscendingIsCanonical(keys, e);
    if Values(keys, d) == Values(keys, e) {
      SameShapeValues(keys, d, e);
      assert forall k :: k in d.Keys ==> k in keys;
    }
  }

  lemma {:induction false} SameShapeValues(keys: seq<string>, d: Data, e: Data)
    requires forall k :: k in keys ==> k in d && k in e && |d[k]| == |e[k]|
    requires Values(keys, d) == Values(keys, e)
    ensures forall k :: k in keys ==> d[k] == e[k]
  {
    if keys == [] {
    } else {
      var k := keys[0];
      assert d[k] == Values(keys, d)[..|d[k]|] && e[k] == Values(keys, e)[..|e[k]|];
      assert Values(keys[1..], d) == Values(keys, d)[|d[k]|..];
      assert Values(keys[1..], e) == Values(keys, e)[|e[k]|..];
      SameShapeValues(keys[1..], d, e);
      assert forall x :: x in keys ==> x == k || x in keys[1..];
    }
  }

  // ---------- which data the hash input tells apart ----------

  /** The names in the data and the length of the value under each. */
  type Shape = map<string, nat>

  function ShapeOf(data: Data): Shape {
    map k | k in data :: |data[k]|
  }

  function Zeros(n: nat): (z: seq<bv8>)
    ensures |z| == n && forall i :: 0 <= i < n ==> z[i] == 0
  {
    seq(n, _ => 0)
  }

  /** The data of a shape that is zero everywhere. */
  function Blank(shape: Shape): (data: Data)
    ensures ShapeOf(data) == shape
  {
    map k | k in shape :: Zeros(shape[k])
  }

  /** The lengths added up, by repeatedly taking the least name. */
  ghost function Total(shape: Shape): nat
    decreases |shape.Keys|
  {
    if shape.Keys == {} then 0
    else
      LeastExists(shape.Keys);
      var k :| IsLeast(k, shape.Keys);
      var rest := map j | j in shape && j != k :: shape[j];
      assert rest.Keys == shape.Keys - {k};
      shape[k] + Total(rest)
  }

  lemma LeastIsUnique(k: string, l: string, s: set<string>)
    requires IsLeast(k, s) && IsLeast(l, s)
    ensures k == l
  {
    if k != l {
      LessTransitive(k, l, k);
      LessIrreflexive(k);
    }
  }

  lemma {:induction false} CanonicalLength(data: Data)
    ensures |Canonical(data)| == Total(ShapeOf(data))
    decreases |data.Keys|
  {
    assert ShapeOf(data).Keys == data.Keys;
    if data.Keys != {} {
      LeastExists(data.Keys);
      var k :| IsLeast(k, data.Keys);
      forall l | IsLeast(l, data.Keys)
        ensures l == k
      {
        LeastIsUnique(k, l, data.Keys);
      }
      var rest := map j | j in data && j != k :: data[j];
      assert rest.Keys == data.Keys - {k};
      assert ShapeOf(rest) == map j | j in ShapeOf(data) && j != k :: ShapeOf(data)[j];
      CanonicalLength(rest);
    }
  }

  lemma {:induction false} BlankFeedsZeros(data: Data)
    requires forall k :: k in data ==> data[k] == Zeros(|data[k]|)
    ensures Canonical(data) == Zeros(|Canonical(data)|)
    decreases |data.Keys|
  {
    if data.Keys != {} {
      LeastExists(data.Keys);
      var k :| IsLeast(k, data.Keys);
      forall l | IsLeast(l, data.Keys)
        ensures l == k
      {
        LeastIsUnique(k, l, data.Keys);
      }
      var rest := map j | j in data && j != k :: data[j];
      assert rest.Keys == data.Keys - {k};
      BlankFeedsZeros(rest);
      assert Canonical(data) == data[k] + Canonical(rest);
    }
  }

  lemma {:induction false} AscendingExists(s: set<string>) returns (keys: seq<string>)
    ensures Ascending(keys) && Elements(keys) == s
  {
    if s == {} {
      keys := [];
    } else {
      LeastExists(s);
      var k :| IsLeast(k, s);
      var rest := AscendingExists(s - {k});
      keys := [k] + rest;
      forall i, j | 0 <= i < j < |keys|
        ensures Less(keys[i], keys[j])
      {
        assert keys[j] == rest[j - 1] && rest[j - 1] in Elements(rest);
      }
      assert forall x :: x in keys <==> x == k || x in rest;
      assert forall x :: x in rest <==> x in Elements(rest);
    }
  }

  ghost predicate ToldApart(d: Data, e: Data) {
    Canonical(d) == Canonical(e) ==> d == e
  }

  /**
   Which changes the hash input shows, exactly: all data of one shape are told apart from all data of another if and
   only if the shapes are the same, or their total lengths differ. Otherwise a move of bytes between values, or a
   renaming, leaves the hash as it is.
  */
  lemma ShapesToldApart(shape: Shape, shape': Shape)
    ensures (forall d, e :: ShapeOf(d) == shape && ShapeOf(e) == shape' ==> ToldApart(d, e))
       <==> shape == shape' || Total(shape) != Total(shape')
  {
    if shape == shape' {
      forall d, e | ShapeOf(d) == shape && ShapeOf(e) == shape'
        ensures ToldApart(d, e)
      {
        SameShapeToldApart(d, e);
      }
    } else if Total(shape) != Total(shape') {
      forall d, e | ShapeOf(d) == shape && ShapeOf(e) == shape'
        ensures ToldApart(d, e)
      {
        CanonicalLength(d);
        CanonicalLength(e);
      }
    } else {
      BlanksCollide(shape, shape');
      assert ShapeOf(Blank(shape)) == shape && ShapeOf(Blank(shape')) == shape';
    }
  }

  lemma SameShapeToldApart(d: Data, e: Data)
    requires ShapeOf(d) == ShapeOf(e)
    ensures ToldApart(d, e)
  {
    assert d.Keys == ShapeOf(d).Keys == ShapeOf(e).Keys == e.Keys;
    assert forall k :: k in d.Keys ==> |d[k]| == ShapeOf(d)[k] == ShapeOf(e)[k] == |e[k]|;
    var keys := AscendingExists(d.Keys);
    SameShapeIsFaithful(keys, d, e);
  }

  lemma BlanksCollide(shape: Shape, shape': Shape)
    requires shape != shape' && Total(shape) == Total(shape')
    ensures !ToldApart(Blank(shape), Blank(shape'))
  {
    CanonicalLength(Blank(shape));
    CanonicalLength(Blank(shape'));
    BlankFeedsZeros(Blank(shape));
    BlankFeedsZeros(Blank(shape'));
  }
}
