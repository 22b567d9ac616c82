/** Signatures and class names identify what they stand for. */
module TronSchemas {
  import opened Bytes
  import opened Values
  import opened Text
  import opened Tron

  // ---------- Byte order on keys ----------

  lemma {:induction false} LessAsymmetric(a: Bytes, b: Bytes)
    requires Less(a, b)
    ensures !Less(b, a) && a != b
  {
    if a != [] && a[0] == b[0] { LessAsymmetric(a[1..], b[1..]); }
  }

  lemma {:induction false} LessTotal(a: Bytes, b: Bytes)
    ensures Less(a, b) || Less(b, a) || a == b
  {
    if a != [] && b != [] && a[0] == b[0] {
      LessTotal(a[1..], b[1..]);
      assert a == [a[0]] + a[1..] && b == [b[0]] + b[1..];
    }
  }

  lemma {:induction false} LessTransitive(a: Bytes, b: Bytes, c: Bytes)
    requires Less(a, b) && Less(b, c)
    ensures Less(a, c)
  {
    if a != [] && a[0] == b[0] && b[0] == c[0] { LessTransitive(a[1..], b[1..], c[1..]); }
  }

  // ---------- Sorting ----------

  ghost predicate Ascending(ks: seq<Bytes>)
  {
    forall i, j :: 0 <= i < j < |ks| ==> Less(ks[i], ks[j])
  }

  ghost predicate Distinct(ks: seq<Bytes>)
  {
    forall i, j :: 0 <= i < j < |ks| ==> ks[i] != ks[j]
  }

  ghost predicate SameKeys(a: seq<Bytes>, b: seq<Bytes>)
  {
    forall k :: k in a <==> k in b
  }

  lemma {:induction false} InsertMembers(k: Bytes, ks: seq<Bytes>)
    ensures forall x :: x in Insert(k, ks) <==> x == k || x in ks
  {
    if ks != [] && !Less(k, ks[0]) {
      InsertMembers(k, ks[1..]);
      assert ks == [ks[0]] + ks[1..];
    }
  }

  lemma {:induction false} InsertAscending(k: Bytes, ks: seq<Bytes>)
    requires Ascending(ks) && k !in ks
    ensures Ascending(Insert(k, ks))
  {
    if ks == [] {
    } else if Less(k, ks[0]) {
      forall j | 1 <= j < |ks| ensures Less(k, ks[j]) { LessTransitive(k, ks[0], ks[j]); }
    } else {
      InsertAscending(k, ks[1..]);
      InsertMembers(k, ks[1..]);
      LessTotal(k, ks[0]);
      var rest := Insert(k, ks[1..]);
      forall j | 0 <= j < |rest| ensures Less(ks[0], rest[j]) {
        assert rest[j] in rest;
      }
    }
  }

  /** Sorting distinct keys yields them in ascending order, each once. */
  lemma {:induction false} SortSorts(ks: seq<Bytes>)
    requires Distinct(ks)
    ensures Ascending(Sort(ks)) && SameKeys(Sort(ks), ks)
  {
    if ks != [] {
      SortSorts(ks[1..]);
      InsertMembers(ks[0], Sort(ks[1..]));
      InsertAscending(ks[0], Sort(ks[1..]));
      assert ks == [ks[0]] + ks[1..];
    }
  }

  /** An ascending list is determined by its members: any sorting algorithm gives this one. */
  lemma {:induction false} AscendingUnique(a: seq<Bytes>, b: seq<Bytes>)
    requires Ascending(a) && Ascending(b) && SameKeys(a, b)
    ensures a == b
  {
    SomeMember(a);
    SomeMember(b);
    if a != [] && b != [] {
      assert a[0] in b && b[0] in a;
      if a[0] != b[0] {
        LessAsymmetric(a[0], b[0]);
      }
      forall k ensures k in a[1..] <==> k in b[1..] { TailMember(a, k); TailMember(b, k); }
      AscendingUnique(a[1..], b[1..]);
      assert a == [a[0]] + a[1..] && b == [b[0]] + b[1..];
    }
  }

  lemma SomeMember(a: seq<Bytes>)
    ensures a != [] ==> exists k :: k in a
  {
    if a != [] { assert a[0] in a; }
  }

  lemma TailMember(a: seq<Bytes>, k: Bytes)
    requires a != [] && Ascending(a)
    ensures k in a[1..] <==> k in a && k != a[0]
  {
    if k in a[1..] {
      var j :| 0 <= j < |a| - 1 && a[1..][j] == k;
      LessAsymmetric(a[0], a[j + 1]);
    }
  }

  // ---------- Signatures ----------

  ghost predicate CommaFree(ks: seq<Bytes>)
  {
    forall k :: k in ks ==> COMMA !in k
  }

  /** Two texts agreeing up to and past a byte the first parts do not contain agree part by part. */
  lemma CutAt(b: Byte, x: Bytes, u: Bytes, y: Bytes, v: Bytes)
    requires b !in x && b !in y && x + [b] + u == y + [b] + v
    ensures x == y && u == v
  {
    var s := x + [b] + u;
    assert s[|x|] == b && s[|y|] == b;
    assert forall i :: 0 <= i < |x| ==> s[i] == x[i];
    assert forall i :: 0 <= i < |y| ==> s[i] == y[i];
    assert x == s[..|x|] && y == s[..|y|];
    assert u == s[|x| + 1..] && v == s[|y| + 1..];
  }

  lemma JoinHasComma(ks: seq<Bytes>)
    requires |ks| > 1
    ensures COMMA in Join(ks)
  {
    assert Join(ks)[|ks[0]|] == COMMA;
  }

  lemma {:induction false} JoinInjective(a: seq<Bytes>, b: seq<Bytes>)
    requires a != [] && b != [] && CommaFree(a) && CommaFree(b) && Join(a) == Join(b)
    ensures a == b
  {
    assert a[0] in a && b[0] in b;
    if |a| == 1 || |b| == 1 {
      if |a| > 1 { JoinHasComma(a); }
      if |b| > 1 { JoinHasComma(b); }
    } else {
      CutAt(COMMA, a[0], Join(a[1..]), b[0], Join(b[1..]));
      JoinInjective(a[1..], b[1..]);
    }
    assert a == [a[0]] + a[1..] && b == [b[0]] + b[1..];
  }

  lemma KeysDistinct(es: seq<Entry>)
    requires DistinctKeys(es)
    ensures Distinct(Keys(es))
  {
  }

  /** Comma-free objects share a signature exactly when they have the same keys. */
  lemma SignatureIdentifies(a: seq<Entry>, b: seq<Entry>)
    requires a != [] && b != [] && DistinctKeys(a) && DistinctKeys(b)
    requires CommaFree(Keys(a)) && CommaFree(Keys(b))
    ensures Signature(a) == Signature(b) <==> SameKeys(Keys(a), Keys(b))
  {
    KeysDistinct(a);
    KeysDistinct(b);
    SortSorts(Keys(a));
    SortSorts(Keys(b));
    if Signature(a) == Signature(b) { JoinInjective(SortedKeys(a), SortedKeys(b)); }
    if SameKeys(Keys(a), Keys(b)) { AscendingUnique(SortedKeys(a), SortedKeys(b)); }
  }

  /** With commas in keys two different key sets can share a signature. */
  lemma SignaturesCollide()
    ensures var a, b := [Entry([97, COMMA, 98], Atom(Null)), Entry([99], Atom(Null))],
                        [Entry([97], Atom(Null)), Entry([98, COMMA, 99], Atom(Null))];
      DistinctKeys(a) && DistinctKeys(b) && Signature(a) == Signature(b) && !SameKeys(Keys(a), Keys(b))
  {
    var a, b := [Entry([97, COMMA, 98], Atom(Null)), Entry([99], Atom(Null))],
                [Entry([97], Atom(Null)), Entry([98, COMMA, 99], Atom(Null))];
    TwoKeys([97, COMMA, 98], [99]);
    TwoKeys([97], [98, COMMA, 99]);
    assert Keys(a)[0] in Keys(a) && [97, COMMA, 98][0] == 97 && [98, COMMA, 99][0] == 98;
    assert |[97]| == 1 && [97, COMMA, 98] !in Keys(b);
  }

  lemma TwoKeys(x: Bytes, y: Bytes)
    requires x != [] && y != [] && x[0] < y[0]
    ensures var es := [Entry(x, Atom(Null)), Entry(y, Atom(Null))]; Keys(es) == [x, y] && Signature(es) == x + [COMMA] + y
  {
    var es := [Entry(x, Atom(Null)), Entry(y, Atom(Null))];
    assert es[1..] == [Entry(y, Atom(Null))] && es[1..][1..] == [];
    assert Keys(es) == [x, y];
    assert [x, y][1..] == [y] && [y][1..] == [];
    assert Sort([y]) == Insert(y, Sort([])) == [y];
    assert Sort([x, y]) == Insert(x, [y]) == [x, y];
    assert Join([y]) == y;
  }

  // ---------- Class names ----------

  /** Different indices get different names. */
  lemma ClassNamesDistinct(i: nat, j: nat)
    ensures ClassName(i) == ClassName(j) <==> i == j
  {
    if ClassName(i) == ClassName(j) {
      var a, b := ClassName(i)[1..], ClassName(j)[1..];
      assert a == if i / 26 > 0 then Digits(i / 26) else [];
      assert b == if j / 26 > 0 then Digits(j / 26) else [];
      assert ClassName(i)[0] == 65 + i % 26 && ClassName(j)[0] == 65 + j % 26;
      if i / 26 > 0 { DigitsInverse(i / 26); }
      if j / 26 > 0 { DigitsInverse(j / 26); }
    }
  }
}
