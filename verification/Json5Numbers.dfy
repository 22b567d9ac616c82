/** JSON5 numbers: hexadecimal, octal and binary ones in any spelling, signs, and dots at either end. */
module Json5Numbers {
  import opened Bytes
  import opened Text
  import opened Unicode
  import opened Json5
  import opened Json5Proofs
  import Json
  import JsonTokens

  // ---------- Numbers of another base ----------

  function Power(base: nat, k: nat): (r: nat)
  {
    if k == 0 then 1 else base * Power(base, k - 1)
  }

  /** What a row of digits stands for, the first one counting most. */
  function Total(digits: seq<nat>, base: nat): (r: nat)
  {
    if digits == [] then 0 else digits[0] * Power(base, |digits| - 1) + Total(digits[1..], base)
  }

  /** The digits of a number, without leading zeros. */
  function DigitsIn(n: nat, base: nat): (r: seq<nat>)
    requires base >= 2
    ensures r != [] && forall i :: 0 <= i < |r| ==> r[i] < base
  {
    if n < base then [n] else Smaller(n, base); DigitsIn(n / base, base) + [n % base]
  }

  predicate DigitsOk(digits: seq<nat>, upper: seq<bool>, base: nat)
  {
    digits != [] && |upper| == |digits| && base <= 16 && forall i :: 0 <= i < |digits| ==> digits[i] < base
  }

  /** The digits as text, each letter in its own case. */
  function DigitsText(digits: seq<nat>, upper: seq<bool>, base: nat): (r: Bytes)
    requires DigitsOk(digits, upper, base)
    ensures |r| == |digits|
  {
    seq(|digits|, i requires 0 <= i < |digits| => HexLetter(digits[i], upper[i]))
  }

  /** x or X, o or O, b or B. */
  predicate Announces(letter: Byte, base: nat)
  {
    ((letter == 120 || letter == 88) && base == 16) || ((letter == 111 || letter == 79) && base == 8)
    || ((letter == 98 || letter == 66) && base == 2)
  }

  lemma {:induction false} TotalSnoc(digits: seq<nat>, d: nat, base: nat)
    ensures Total(digits + [d], base) == Total(digits, base) * base + d
    decreases |digits|
  {
    if digits == [] {
      assert Power(base, 0) == 1 && [d][1..] == [] && Total([], base) == 0;
    } else {
      var all := digits + [d];
      assert all[1..] == digits[1..] + [d];
      TotalSnoc(digits[1..], d, base);
      Shifted(digits[0], base, Power(base, |digits| - 1), Total(digits[1..], base), d);
    }
  }

  lemma Shifted(first: nat, base: nat, p: nat, rest: nat, d: nat)
    ensures first * (base * p) + (rest * base + d) == (first * p + rest) * base + d
  {
    assert first * (base * p) == first * p * base;
  }

  lemma {:induction false} DigitsInTotal(n: nat, base: nat)
    requires base >= 2
    ensures Total(DigitsIn(n, base), base) == n
    decreases n
  {
    hide Total;
    if n < base {
      OneDigit(n, base);
    } else {
      Smaller(n, base);
      DigitsInTotal(n / base, base);
      TotalSnoc(DigitsIn(n / base, base), n % base, base);
      Divided(n, base);
    }
  }

  lemma OneDigit(d: nat, base: nat)
    ensures Total([d], base) == d
  {
    assert Power(base, 0) == 1 && [d][1..] == [] && Total([], base) == 0;
  }

  lemma Divided(n: nat, base: nat)
    requires base > 0
    ensures n / base * base + n % base == n
  {
  }

  lemma Smaller(n: nat, base: nat)
    requires n >= base >= 2
    ensures n / base < n && n % base < base
  {
    var q := n / base;
    Divided(n, base);
    Twice(q, base);
  }

  lemma Twice(q: nat, base: nat)
    requires base >= 2
    ensures q * base >= 2 * q
  {
  }

  lemma {:induction false} ValueIs(digits: seq<nat>, upper: seq<bool>, base: nat)
    requires DigitsOk(digits, upper, base)
    ensures BaseValue(DigitsText(digits, upper, base), base) == Total(digits, base)
    decreases |digits|
  {
    var text, n := DigitsText(digits, upper, base), |digits| - 1;
    HexLetterInverse(digits[n], upper[n]);
    if n == 0 {
      assert text[..0] == [] && BaseValue([], base) == 0;
      assert digits == [digits[0]];
      OneDigit(digits[0], base);
    } else {
      assert text[..n] == DigitsText(digits[..n], upper[..n], base);
      ValueIs(digits[..n], upper[..n], base);
      assert digits == digits[..n] + [digits[n]];
      TotalSnoc(digits[..n], digits[n], base);
    }
  }

  lemma {:induction false} EndIs(digits: seq<nat>, upper: seq<bool>, base: nat, s: Bytes, i: nat)
    requires DigitsOk(digits, upper, base) && At(s, i, DigitsText(digits, upper, base))
    requires var e := i + |digits|; e >= |s| || !(0 <= HexValue(s[e]) < base)
    ensures BaseEnd(s, i, base) == i + |digits|
    decreases |digits|
  {
    var text := DigitsText(digits, upper, base);
    AtHead(s, i, text);
    HexLetterInverse(digits[0], upper[0]);
    if |digits| > 1 {
      assert text[1..] == DigitsText(digits[1..], upper[1..], base);
      EndIs(digits[1..], upper[1..], base, s, i + 1);
    }
  }

  /** A number of another base, up to a byte that is no digit of that base, is written out in decimal; from 2^64 on the
      translator throws. */
  lemma BasedGoes(letter: Byte, base: nat, digits: seq<nat>, upper: seq<bool>, s: Bytes, i: nat)
    requires Announces(letter, base) && DigitsOk(digits, upper, base)
    requires At(s, i, [ZERO, letter] + DigitsText(digits, upper, base))
    requires var e := i + 2 + |digits|; e >= |s| || !(0 <= HexValue(s[e]) < base)
    ensures var n := Total(digits, base);
      if n < TWO_64 then Goes(s, i, Outside, Digits(n), i + 2 + |digits|, Outside) else Translate(s, i, Outside) == None
  {
    hide *;
    var text := DigitsText(digits, upper, base);
    AtSplit(s, i, [ZERO, letter], text);
    AtHead(s, i, [ZERO, letter]);
    AtHead(s, i + 1, [ZERO, letter][1..]);
    FirstDigit(digits, upper, base);
    AtHead(s, i + 2, text);
    EndIs(digits, upper, base, s, i + 2);
    ValueIs(digits, upper, base);
    Announced(letter, base, s, i);
    BasedStep(s, i, base, i + 2 + |digits|);
    Cut(s, i + 2, text);
    var n := Total(digits, base);
    if n < TWO_64 { GoesStep(s, i, Outside, Move(Digits(n), i + 2 + |digits|, Outside)); } else { StepFails(s, i, Outside); }
  }

  lemma Cut(s: Bytes, i: nat, text: Bytes)
    requires At(s, i, text)
    ensures s[i..i + |text|] == text
  {
  }

  lemma FirstDigit(digits: seq<nat>, upper: seq<bool>, base: nat)
    requires DigitsOk(digits, upper, base)
    ensures digits != [] && base <= 16 && 0 <= HexValue(DigitsText(digits, upper, base)[0]) < base && |DigitsText(digits, upper, base)| == |digits|
  {
    HexLetterInverse(digits[0], upper[0]);
  }

  lemma Announced(letter: Byte, base: nat, s: Bytes, i: nat)
    requires Announces(letter, base) && i + 2 < |s| && s[i] == ZERO && s[i + 1] == letter && 0 <= HexValue(s[i + 2]) < base
    ensures BaseAt(s, i) == base
  {
  }

  lemma BasedStep(s: Bytes, i: nat, base: nat, e: nat)
    requires i + 2 <= e <= |s| && s[i] == ZERO && BaseAt(s, i) == base > 0 && BaseEnd(s, i + 2, base) == e
    ensures var n := BaseValue(s[i + 2..e], base);
      Step(s, i, Outside) == if n < TWO_64 then Some(Move(Digits(n), e, Outside)) else None
  {
    hide BaseAt, BaseEnd, BaseValue, Digits;
  }

  lemma StepFails(s: Bytes, i: nat, a: State)
    requires i < |s| && Step(s, i, a) == None
    ensures Translate(s, i, a) == None
  {
    hide Step;
  }

  /** Every number below 2^64, in the digits of any of the three bases and any case, comes out in decimal. */
  lemma NumberGoes(letter: Byte, base: nat, n: UInt64, upper: seq<bool>, s: Bytes, i: nat)
    requires Announces(letter, base) && |upper| == |DigitsIn(n, base)|
    requires At(s, i, [ZERO, letter] + DigitsText(DigitsIn(n, base), upper, base))
    requires var e := i + 2 + |upper|; e >= |s| || !(0 <= HexValue(s[e]) < base)
    ensures Goes(s, i, Outside, Digits(n), i + 2 + |upper|, Outside)
  {
    hide Goes, Digits;
    DigitsInTotal(n, base);
    BasedGoes(letter, base, DigitsIn(n, base), upper, s, i);
  }

  /** A document that is such a number. */
  lemma NumberTranslates(letter: Byte, base: nat, n: nat, upper: seq<bool>)
    requires Announces(letter, base) && |upper| == |DigitsIn(n, base)|
    ensures Translate([ZERO, letter] + DigitsText(DigitsIn(n, base), upper, base), 0, Outside)
         == if n < TWO_64 then Some(Digits(n)) else None
  {
    hide Translate, Digits, DigitsIn, DigitsText;
    var s := [ZERO, letter] + DigitsText(DigitsIn(n, base), upper, base);
    assert s[0..|s|] == s;
    DigitsInTotal(n, base);
    BasedGoes(letter, base, DigitsIn(n, base), upper, s, 0);
    TranslateEnd(s);
    assert Digits(n) + [] == Digits(n);
  }
}
