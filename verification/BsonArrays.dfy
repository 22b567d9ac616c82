/** Rebuilding arrays from documents whose keys are positions. */
module BsonArrays {
  import opened Bytes
  import opened Values
  import opened Text
  import opened Bson

  lemma DigitsDistinct(i: nat, j: nat)
    ensures Digits(i) == Digits(j) <==> i == j
  {
    DigitsInverse(i);
    DigitsInverse(j);
  }

  /** The document an array is stored as: each element under its decimal position. */
  function Indexed(vs: seq<Value>): (r: map<Bytes, Value>)
  {
    if vs == [] then map[] else Indexed(vs[..|vs| - 1])[Digits(|vs| - 1) := vs[|vs| - 1]]
  }

  lemma IndexedStep(vs: seq<Value>)
    requires vs != []
    ensures var n := |vs| - 1; Indexed(vs) == Indexed(vs[..n])[Digits(n) := vs[n]]
  {
    hide Digits;
  }

  lemma IndexedNone()
    ensures Indexed([]) == map[]
  {
  }

  lemma SizeGrows(m: map<Bytes, Value>, k: Bytes, v: Value)
    requires k !in m
    ensures |m[k := v]| == |m| + 1
  {
    assert m[k := v].Keys == m.Keys + {k};
    assert |m[k := v].Keys| == |m.Keys| + 1;
  }

  lemma {:induction false} IndexedHas(vs: seq<Value>)
    ensures forall i :: 0 <= i < |vs| ==> Digits(i) in Indexed(vs) && Indexed(vs)[Digits(i)] == vs[i]
    ensures forall k :: k in Indexed(vs) ==> exists i :: 0 <= i < |vs| && k == Digits(i)
    ensures |Indexed(vs)| == |vs|
  {
    hide Digits, Indexed;
    if vs == [] {
      IndexedNone();
    } else {
      var n := |vs| - 1;
      var init := vs[..n];
      IndexedHas(init);
      IndexedStep(vs);
      assert forall i :: 0 <= i < n ==> init[i] == vs[i];
      forall i | 0 <= i < n ensures Digits(i) != Digits(n) { DigitsDistinct(i, n); }
      assert Digits(n) !in Indexed(init);
      SizeGrows(Indexed(init), Digits(n), vs[n]);
      forall i | 0 <= i < |vs| ensures Digits(i) in Indexed(vs) && Indexed(vs)[Digits(i)] == vs[i] {
        if i < n { assert Digits(i) in Indexed(init); }
      }
    }
  }

  lemma {:induction false} SequentialIs(m: map<Bytes, Value>, n: nat)
    ensures Sequential(m, n) <==> forall i :: 0 <= i < n ==> Digits(i) in m
    ensures Sequential(m, n) ==> forall i :: 0 <= i < n ==> InOrder(m, n)[i] == m[Digits(i)]
  {
    hide Digits;
    if n > 0 {
      SequentialIs(m, n - 1);
      assert (forall i :: 0 <= i < n ==> Digits(i) in m) <==> (Digits(n - 1) in m && forall i :: 0 <= i < n - 1 ==> Digits(i) in m);
    }
  }

  /** Sets of equal size, one inside the other, are equal. */
  lemma SameSize<T>(a: set<T>, b: set<T>)
    requires a <= b && |a| == |b|
    ensures a == b
  {
    assert |b - a| == |b| - |a|;
  }

  /** A document of n members that has all n positions has nothing else. */
  lemma NothingElse(m: map<Bytes, Value>)
    requires Sequential(m, |m|)
    ensures m == Indexed(InOrder(m, |m|))
  {
    hide Digits, Sequential, InOrder, Indexed;
    var vs := InOrder(m, |m|);
    SequentialIs(m, |m|);
    IndexedHas(vs);
    var x := Indexed(vs);
    forall k | k in x ensures k in m && m[k] == x[k] {
      var i :| 0 <= i < |vs| && k == Digits(i);
      assert 0 <= i < |m| && Digits(i) in m;
    }
    SameSize(x.Keys, m.Keys);
  }

  /** A document is read as the array of these elements exactly when it holds them, and only them, under
      their positions; an empty document never is. */
  lemma RebuildIs(m: map<Bytes, Value>, vs: seq<Value>)
    ensures Rebuild(m) == Success(Array(vs)) <==> vs != [] && |vs| <= MAX_ARRAY_SIZE && m == Indexed(vs)
  {
    hide Digits, Sequential, InOrder, Indexed;
    IndexedHas(vs);
    if m == Indexed(vs) {
      SequentialIs(m, |m|);
      assert Sequential(m, |m|);
      assert forall i :: 0 <= i < |vs| ==> InOrder(m, |m|)[i] == vs[i];
      assert InOrder(m, |m|) == vs;
    }
    if m != map[] && Sequential(m, |m|) {
      NothingElse(m);
      NotEmpty(m);
    }
  }

  lemma NotEmpty(m: map<Bytes, Value>)
    ensures m == map[] <==> |m| == 0
  {
    assert m.Keys == {} <==> |m.Keys| == 0;
    assert m.Keys == {} ==> m == map[];
  }

  ghost predicate IsPosition(k: Bytes, n: nat)
  {
    exists i :: 0 <= i < n && k == Digits(i)
  }

  /** The decoder makes an array of a document exactly when it is not empty and its keys are the decimal
      positions below its size. */
  lemma ArrayExactly(m: map<Bytes, Value>)
    ensures Rebuild(m).Success? && Rebuild(m).value.Array?
       <==> m != map[] && |m| <= MAX_ARRAY_SIZE && (forall k :: k in m <==> IsPosition(k, |m|))
  {
    hide Digits, Sequential, InOrder, Indexed;
    SequentialIs(m, |m|);
    if m != map[] && Sequential(m, |m|) {
      NothingElse(m);
      var vs := InOrder(m, |m|);
      IndexedHas(vs);
      forall k ensures k in m <==> IsPosition(k, |m|) {
        if IsPosition(k, |m|) { var i :| 0 <= i < |m| && k == Digits(i); assert 0 <= i < |vs|; }
      }
    }
    if forall k :: k in m <==> IsPosition(k, |m|) {
      forall i | 0 <= i < |m| ensures Digits(i) in m { assert IsPosition(Digits(i), |m|); }
    }
  }
}
