/** Decimal formatting of query numbers, as `str` and the `03d` format
    specification produce it, with the reading back that shows no two numbers
    share a text. */
module Decimal {
  import opened Py

  predicate IsDigit(c: char) {
    '0' <= c <= '9'
  }

  predicate AllDigits(s: string) {
    forall k :: 0 <= k < |s| ==> IsDigit(s[k])
  }

  function DigitChar(d: nat): (c: char)
    requires d < 10
    ensures IsDigit(c)
  {
    (('0' as int) + d) as char
  }

  /** `str(n)`: the shortest decimal numeral. */
  function Digits(n: nat): string
    decreases n
  {
    if n < 10 then [DigitChar(n)] else Digits(n / 10) + [DigitChar(n % 10)]
  }

  /** The number a string of digits denotes (read positionally in base 10;
      meaningful when every character is a digit). */
  function Value(s: string): int {
    if s == [] then 0 else Value(s[..|s| - 1]) * 10 + ((s[|s| - 1] as int) - ('0' as int))
  }

  function Zeros(k: nat): string {
    if k == 0 then [] else Zeros(k - 1) + ['0']
  }

  /** `f"{n:03d}"`: the numeral of `n`, left-padded with zeros to at least
      three characters. */
  function Pad3(n: nat): string {
    var d := Digits(n);
    (if |d| < 3 then Zeros(3 - |d|) else []) + d
  }

  /** A numeral is a non-empty string of digits with no leading zero. */
  lemma {:induction false} DigitsShape(n: nat)
    ensures Digits(n) != [] && AllDigits(Digits(n))
    ensures Digits(n)[0] == '0' ==> n == 0
    decreases n
  {
    if n >= 10 {
      DigitsShape(n / 10);
      assert Digits(n)[0] == Digits(n / 10)[0];
    }
  }

  lemma {:induction false} ZerosShape(k: nat)
    ensures |Zeros(k)| == k
    ensures forall i :: 0 <= i < k ==> Zeros(k)[i] == '0'
  {
    if k > 0 {
      ZerosShape(k - 1);
    }
  }

  /** The padded numeral: at least three digits, the numeral of `n` at the
      end, zeros before it. */
  lemma Pad3Shape(n: nat)
    ensures AllDigits(Pad3(n))
    ensures |Pad3(n)| == if |Digits(n)| < 3 then 3 else |Digits(n)|
    ensures |Digits(n)| <= |Pad3(n)| && Pad3(n)[|Pad3(n)| - |Digits(n)|..] == Digits(n)
    ensures forall i :: 0 <= i < |Pad3(n)| - |Digits(n)| ==> Pad3(n)[i] == '0'
  {
    DigitsShape(n);
    var d := Digits(n);
    if |d| < 3 {
      var z := Zeros(3 - |d|);
      ZerosShape(3 - |d|);
      assert Pad3(n) == z + d;
      PadCore(z, d);
    } else {
      assert Pad3(n) == [] + d;
      PadCore([], d);
    }
  }

  lemma PadCore(z: string, d: string)
    requires AllDigits(d) && forall i :: 0 <= i < |z| ==> z[i] == '0'
    ensures AllDigits(z + d) && (z + d)[|z|..] == d
    ensures forall i :: 0 <= i < |z| ==> (z + d)[i] == '0'
  {
    assert forall i :: 0 <= i < |z + d| ==> (z + d)[i] == if i < |z| then z[i] else d[i - |z|];
  }

  lemma DigitRoundTrip(d: nat)
    requires d < 10
    ensures (DigitChar(d) as int) - ('0' as int) == d
  {
  }

  /** Reading a numeral back gives the number. */
  lemma {:induction false} ValueOfDigits(n: nat)
    ensures Value(Digits(n)) == n
    decreases n
  {
    DigitsShape(n);
    DigitRoundTrip(n % 10);
    if n >= 10 {
      ValueOfDigits(n / 10);
      DigitsShape(n / 10);
      var s := Digits(n);
      assert s[..|s| - 1] == Digits(n / 10);
    }
  }

  /** Leading zeros do not change the value. */
  lemma {:induction false} ValueOfPadded(k: nat, s: string)
    ensures Value(Zeros(k) + s) == Value(s)
    decreases |s|
  {
    var z := Zeros(k) + s;
    if s == [] {
      assert z == Zeros(k);
      ValueOfZeros(k);
    } else {
      assert z[..|z| - 1] == Zeros(k) + s[..|s| - 1];
      ValueOfPadded(k, s[..|s| - 1]);
    }
  }

  lemma {:induction false} ValueOfZeros(k: nat)
    ensures Value(Zeros(k)) == 0
  {
    if k > 0 {
      ZerosShape(k);
      assert Zeros(k)[..k - 1] == Zeros(k - 1);
      ValueOfZeros(k - 1);
    }
  }

  /** The padded numeral still denotes the number, so different numbers get
      different padded texts. */
  lemma ValueOfPad3(n: nat)
    ensures Value(Pad3(n)) == n
  {
    var d := Digits(n);
    ValueOfDigits(n);
    if |d| < 3 {
      ValueOfPadded(3 - |d|, d);
    } else {
      assert Pad3(n) == d;
    }
  }

  lemma Pad3Injective(a: nat, b: nat)
    requires Pad3(a) == Pad3(b)
    ensures a == b
  {
    ValueOfPad3(a);
    ValueOfPad3(b);
  }
}
