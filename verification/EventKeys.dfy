/** Event ids as store keys: ten-digit zero padding makes byte order agree with numeric order. */
module EventKeys {
  import opened Text

  const EID_BOUND := 1_00000_00000  // ten decimal digits

  function Zeros(k: nat): (s: string)
    ensures |s| == k && forall i :: 0 <= i < k ==> s[i] == '0'
  {
    seq(k, _ => '0')
  }

  /** `toIndex`: decimal text, left-padded with zeros to at least ten characters. */
  function ToIndex(i: nat): string {
    var s := ToString(i);
    if |s| < 10 then Zeros(10 - |s|) + s else s
  }

  /** The byte order of the key/value store. */
  predicate LexLeq(a: string, b: string) {
    a == [] || (b != [] && (a[0] < b[0] || (a[0] == b[0] && LexLeq(a[1..], b[1..]))))
  }

  function Pow10(k: nat): (p: nat)
    ensures p >= 1
  {
    if k == 0 then 1 else 10 * Pow10(k - 1)
  }

  lemma {:induction false} ToStringLength(n: nat, k: nat)
    requires k >= 1 && n < Pow10(k)
    ensures |ToString(n)| <= k
  {
    if n >= 10 {
      ToStringLength(n / 10, k - 1);
    }
  }

  lemma {:induction false} ValueOfPadded(k: nat, s: string)
    requires AllDigits(s)
    ensures AllDigits(Zeros(k) + s) && Value(Zeros(k) + s) == Value(s)
  {
    var t := Zeros(k) + s;
    if s == [] {
      if k > 0 {
        assert t[..k - 1] == Zeros(k - 1) + [];
        ValueOfPadded(k - 1, []);
      }
    } else {
      var init := s[..|s| - 1];
      assert t[..|t| - 1] == Zeros(k) + init;
      ValueOfPadded(k, init);
    }
  }

  lemma ToIndexText(i: nat)
    requires i < EID_BOUND
    ensures |ToIndex(i)| == 10 && AllDigits(ToIndex(i)) && Value(ToIndex(i)) == i
  {
    hide ToString, Value, Pow10;
    ToStringValue(i);
    TenDigits();
    ToStringLength(i, 10);
    if |ToString(i)| < 10 {
      ValueOfPadded(10 - |ToString(i)|, ToString(i));
    }
  }

  lemma TenDigits()
    ensures Pow10(10) == EID_BOUND
  {
    assert Pow10(5) == 100000;
    assert Pow10(10) == 100000 * Pow10(5);
  }

  lemma Distribute(d: nat, p: nat, v: nat)
    ensures 10 * (d * p + v) == d * (10 * p) + 10 * v
  {
  }

  lemma {:induction false} ValueFromFront(s: string)
    requires s != [] && AllDigits(s)
    ensures AllDigits(s[1..])
    ensures Value(s) == DigitValue(s[0]) * Pow10(|s| - 1) + Value(s[1..])
  {
    if |s| == 1 {
      assert s[..0] == [] && s[1..] == [];
    } else {
      var init := s[..|s| - 1];
      ValueFromFront(init);
      assert init[1..] == s[1..][..|s| - 2];
      var d, p, v := DigitValue(s[0]), Pow10(|s| - 2), Value(init[1..]);
      Distribute(d, p, v);
    }
  }

  lemma {:induction false} ValueBound(s: string)
    requires AllDigits(s)
    ensures Value(s) < Pow10(|s|)
  {
    if s != [] {
      ValueBound(s[..|s| - 1]);
    }
  }

  /** On digit strings of one length, byte order is numeric order. */
  lemma {:induction false} LexIsNumeric(a: string, b: string)
    requires |a| == |b| && AllDigits(a) && AllDigits(b)
    ensures LexLeq(a, b) <==> Value(a) <= Value(b)
  {
    if a != [] {
      ValueFromFront(a);
      ValueFromFront(b);
      LexIsNumeric(a[1..], b[1..]);
      ValueBound(a[1..]);
      ValueBound(b[1..]);
      var p := Pow10(|a| - 1);
      var x, y := DigitValue(a[0]), DigitValue(b[0]);
      if x < y {
        MulStep(x, y, p);
      } else if y < x {
        MulStep(y, x, p);
      }
    }
  }

  lemma MulStep(x: nat, y: nat, p: nat)
    requires x < y
    ensures x * p + p <= y * p
  {
    assert (x + 1) * p <= y * p;
  }

  /** Padding preserves numeric order below the bound, in both directions. */
  lemma PaddingPreservesOrder(i: nat, j: nat)
    requires i < EID_BOUND && j < EID_BOUND
    ensures LexLeq(ToIndex(i), ToIndex(j)) <==> i <= j
  {
    ToIndexText(i);
    ToIndexText(j);
    LexIsNumeric(ToIndex(i), ToIndex(j));
  }

  /** Ten characters for small ids, as many as it takes for others. */
  lemma PaddedText()
    ensures ToIndex(7) == "0000000007"
  {
    assert ToString(7) == "7";
    assert Zeros(9) == "000000000";
  }
}
