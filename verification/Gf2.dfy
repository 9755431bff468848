/** Bit-serial division over GF(2) by the generator x^16 + x^12 + x^5 + 1. A remainder is a
    sequence of sixteen coefficients, that of x^15 first. */
module Gf2 {

  type Poly = p: seq<bool> | |p| == 16 witness seq(16, _ => false)

  /** The generator without its leading term, x^12 + x^5 + 1: where it has coefficients. */
  predicate Tap(k: nat) {
    k == 3 || k == 10 || k == 15
  }

  const GENERATOR: Poly := seq(16, k requires 0 <= k < 16 => Tap(k))

  function Zeros(n: nat): (z: seq<bool>)
    ensures |z| == n && forall k | 0 <= k < n :: !z[k]
  {
    seq(n, _ => false)
  }

  function Xor(a: Poly, b: Poly): (c: Poly)
    ensures forall k | 0 <= k < 16 :: c[k] == (a[k] != b[k])
  {
    seq(16, k requires 0 <= k < 16 => a[k] != b[k])
  }

  /** Multiplication by x, reduced by the generator. */
  function Times(a: Poly): (c: Poly)
    ensures forall k | 0 <= k < 16 :: c[k] == ((k < 15 && a[k + 1]) != (a[0] && Tap(k)))
  {
    seq(16, k requires 0 <= k < 16 => (k < 15 && a[k + 1]) != (a[0] && Tap(k)))
  }

  /** Multiplication by x^n. */
  function Raise(n: nat, a: Poly): Poly
    decreases n
  {
    if n == 0 then a else Raise(n - 1, Times(a))
  }

  /** Schoolbook long division: the partial remainder is brought down by one dividend bit, which
      enters on the right. */
  function DivideStep(rem: Poly, bit: bool): Poly {
    if bit then Times(rem)[15 := !Times(rem)[15]] else Times(rem)
  }

  function Remainder(rem: Poly, bits: seq<bool>): Poly
    decreases |bits|
  {
    if bits == [] then rem else Remainder(DivideStep(rem, bits[0]), bits[1..])
  }

  /** The register form without trailing zeros: the generator is subtracted when the leaving
      coefficient differs from the message bit. */
  function BitStep(crc: Poly, bit: bool): Poly {
    Times(crc[0 := crc[0] != bit])
  }

  function BitCrc(crc: Poly, bits: seq<bool>): Poly
    decreases |bits|
  {
    if bits == [] then crc else BitCrc(BitStep(crc, bits[0]), bits[1..])
  }

  // ---------------------------------------------------------------- algebra

  lemma TimesLinear(a: Poly, b: Poly)
    ensures Times(Xor(a, b)) == Xor(Times(a), Times(b))
  {
  }

  lemma {:induction false} RaiseLinear(n: nat, a: Poly, b: Poly)
    ensures Raise(n, Xor(a, b)) == Xor(Raise(n, a), Raise(n, b))
    decreases n
  {
    if n > 0 {
      TimesLinear(a, b);
      RaiseLinear(n - 1, Times(a), Times(b));
    }
  }

  lemma {:induction false} RaiseTimes(n: nat, a: Poly)
    ensures Raise(n, Times(a)) == Times(Raise(n, a))
    decreases n
  {
    if n > 0 {
      RaiseTimes(n - 1, Times(a));
    }
  }

  lemma TimesInjective(a: Poly, b: Poly)
    requires Times(a) == Times(b)
    ensures a == b
  {
    assert a[0] == Times(a)[15] == Times(b)[15] == b[0];
    forall k | 0 <= k < 16
      ensures a[k] == b[k]
    {
      if k > 0 {
        assert Times(a)[k - 1] == Times(b)[k - 1];
      }
    }
  }

  lemma {:induction false} RaiseInjective(n: nat, a: Poly, b: Poly)
    requires Raise(n, a) == Raise(n, b)
    ensures a == b
    decreases n
  {
    if n > 0 {
      RaiseInjective(n - 1, Times(a), Times(b));
      TimesInjective(a, b);
    }
  }

  /** Multiplication by x is onto: division by x, possible because the generator ends in one. */
  function Over(a: Poly): (q: Poly)
    ensures Times(q) == a
  {
    var q: Poly := seq(16, k requires 0 <= k < 16 =>
      if k == 0 then a[15] else a[k - 1] != (a[15] && Tap(k - 1)));
    assert Times(q) == a;
    q
  }

  function Lower(n: nat, a: Poly): (q: Poly)
    ensures Raise(n, q) == a
    decreases n
  {
    if n == 0 then a else Over(Lower(n - 1, a))
  }

  /** A short word at the top of the register, nothing below it. */
  function Padded(w: seq<bool>): Poly
    requires |w| <= 16
  {
    w + Zeros(16 - |w|)
  }

  lemma AbsorbBit(crc: Poly, w: seq<bool>)
    requires 0 < |w| <= 16
    ensures Times(Xor(crc, Padded(w))) == Xor(BitStep(crc, w[0]), Padded(w[1..]))
  {
  }

  /** Feeding up to sixteen bits one by one is the same as adding them to the top of the
      register first and then multiplying. */
  lemma {:induction false} AbsorbBits(crc: Poly, w: seq<bool>)
    requires |w| <= 16
    ensures BitCrc(crc, w) == Raise(|w|, Xor(crc, Padded(w)))
    decreases |w|
  {
    if w == [] {
      assert Xor(crc, Padded(w)) == crc;
    } else {
      AbsorbBit(crc, w);
      AbsorbBits(BitStep(crc, w[0]), w[1..]);
    }
  }

  /** Multiplying by x^n only moves coefficients while nothing reaches the top. */
  lemma {:induction false} RaiseLow(n: nat, w: seq<bool>)
    requires |w| + n <= 16
    ensures Raise(n, Zeros(16 - |w|) + w) == Zeros(16 - |w| - n) + w + Zeros(n)
    decreases n
  {
    if n == 0 {
      assert Zeros(16 - |w|) + w == Zeros(16 - |w| - n) + w + Zeros(n);
    } else {
      var a: Poly := Zeros(16 - |w|) + w;
      var w': seq<bool> := w + [false];
      assert Times(a) == Zeros(16 - |w'|) + w';
      RaiseLow(n - 1, w');
      assert Zeros(16 - |w'| - (n - 1)) + w' + Zeros(n - 1) == Zeros(16 - |w| - n) + w + Zeros(n);
    }
  }

  // ---------------------------------------------------------------- concatenation

  lemma {:induction false} BitCrcConcat(crc: Poly, a: seq<bool>, b: seq<bool>)
    ensures BitCrc(crc, a + b) == BitCrc(BitCrc(crc, a), b)
    decreases |a|
  {
    if a == [] {
      assert a + b == b;
    } else {
      assert (a + b)[1..] == a[1..] + b;
      BitCrcConcat(BitStep(crc, a[0]), a[1..], b);
    }
  }

  lemma {:induction false} RemainderConcat(rem: Poly, a: seq<bool>, b: seq<bool>)
    ensures Remainder(rem, a + b) == Remainder(Remainder(rem, a), b)
    decreases |a|
  {
    if a == [] {
      assert a + b == b;
    } else {
      assert (a + b)[1..] == a[1..] + b;
      RemainderConcat(DivideStep(rem, a[0]), a[1..], b);
    }
  }

  // ---------------------------------------------------------------- register form = long division

  lemma {:induction false} RemainderOfZeros(rem: Poly, n: nat)
    ensures Remainder(rem, Zeros(n)) == Raise(n, rem)
    decreases n
  {
    if n > 0 {
      assert Zeros(n)[1..] == Zeros(n - 1);
      RemainderOfZeros(Times(rem), n - 1);
    }
  }

  const ONE: Poly := Zeros(15) + [true]

  /** x^16 leaves the generator's tail. */
  lemma RaiseOne()
    ensures Raise(16, ONE) == GENERATOR
  {
    RaiseLow(15, [true]);
    RaiseTimes(15, ONE);
    assert Raise(15, ONE) == [true] + Zeros(15);
    assert Times([true] + Zeros(15)) == GENERATOR;
    assert Raise(16, ONE) == Raise(15, Times(ONE));
  }

  lemma RaisedStep(n: nat, rem: Poly, bit: bool)
    requires Raise(n, ONE) == GENERATOR
    ensures Raise(n, DivideStep(rem, bit)) == BitStep(Raise(n, rem), bit)
  {
    var top := Raise(n, rem);
    RaiseTimes(n, rem);
    if bit {
      assert DivideStep(rem, bit) == Xor(Times(rem), ONE);
      RaiseLinear(n, Times(rem), ONE);
      assert BitStep(top, bit) == Xor(Times(top), GENERATOR);
    } else {
      assert top[0 := top[0] != bit] == top;
    }
  }

  lemma RaisedDivideStep(rem: Poly, bit: bool)
    ensures Raise(16, DivideStep(rem, bit)) == BitStep(Raise(16, rem), bit)
  {
    RaiseOne();
    RaisedStep(16, rem, bit);
  }

  /** The register form computes the remainder of the message followed by sixteen zeros. */
  lemma {:induction false} BitCrcIsRemainder(rem: Poly, bits: seq<bool>)
    ensures BitCrc(Raise(16, rem), bits) == Remainder(rem, bits + Zeros(16))
    decreases |bits|
  {
    if bits == [] {
      assert bits + Zeros(16) == Zeros(16);
      RemainderOfZeros(rem, 16);
    } else {
      assert (bits + Zeros(16))[1..] == bits[1..] + Zeros(16);
      RaisedDivideStep(rem, bits[0]);
      BitCrcIsRemainder(DivideStep(rem, bits[0]), bits[1..]);
    }
  }

  // ---------------------------------------------------------------- error detection

  lemma {:induction false} BitCrcInjective(a: Poly, b: Poly, bits: seq<bool>)
    requires BitCrc(a, bits) == BitCrc(b, bits)
    ensures a == b
    decreases |bits|
  {
    if bits != [] {
      var a', b' := a[0 := a[0] != bits[0]], b[0 := b[0] != bits[0]];
      BitCrcInjective(BitStep(a, bits[0]), BitStep(b, bits[0]), bits[1..]);
      TimesInjective(a', b');
      assert a == a'[0 := a'[0] != bits[0]] && b == b'[0 := b'[0] != bits[0]];
    }
  }

  lemma BurstDetermines(crc: Poly, before: seq<bool>, w: seq<bool>, w': seq<bool>, after: seq<bool>)
    requires |w| == |w'| <= 16
    requires BitCrc(crc, before + w + after) == BitCrc(crc, before + w' + after)
    ensures w == w'
  {
    var mid := BitCrc(crc, before);
    forall u | u == w || u == w'
      ensures BitCrc(crc, before + u + after) == BitCrc(Raise(|w|, Xor(mid, Padded(u))), after)
    {
      BitCrcConcat(crc, before + u, after);
      BitCrcConcat(crc, before, u);
      AbsorbBits(mid, u);
    }
    var x, x' := Xor(mid, Padded(w)), Xor(mid, Padded(w'));
    BitCrcInjective(Raise(|w|, x), Raise(|w|, x'), after);
    RaiseInjective(|w|, x, x');
    forall k | 0 <= k < |w|
      ensures w[k] == w'[k]
    {
      assert x[k] == (mid[k] != w[k]) && x'[k] == (mid[k] != w'[k]);
    }
  }

  /** Two bit strings that differ only inside one window of at most sixteen consecutive bits
      never leave the same register. */
  lemma BurstDetected(crc: Poly, before: seq<bool>, w: seq<bool>, w': seq<bool>, after: seq<bool>)
    requires |w| == |w'| <= 16 && w != w'
    ensures BitCrc(crc, before + w + after) != BitCrc(crc, before + w' + after)
  {
    if BitCrc(crc, before + w + after) == BitCrc(crc, before + w' + after) {
      BurstDetermines(crc, before, w, w', after);
    }
  }

  /** Whether an odd number of the bits is set. */
  function Odd(bits: seq<bool>): bool {
    if bits == [] then false else bits[0] != Odd(bits[1..])
  }

  lemma {:induction false} OddAppend(a: seq<bool>, b: bool)
    ensures Odd(a + [b]) == (Odd(a) != b)
  {
    if a == [] {
      assert a + [b] == [b];
    } else {
      assert (a + [b])[1..] == a[1..] + [b];
      OddAppend(a[1..], b);
    }
  }

  predicate IsXor(c: seq<bool>, a: seq<bool>, b: seq<bool>) {
    |c| == |a| == |b| && forall k | 0 <= k < |a| :: c[k] == (a[k] != b[k])
  }

  lemma {:induction false} OddXor(c: seq<bool>, a: seq<bool>, b: seq<bool>)
    requires IsXor(c, a, b)
    ensures Odd(c) == (Odd(a) != Odd(b))
  {
    if c != [] {
      OddXor(c[1..], a[1..], b[1..]);
    }
  }

  lemma {:induction false} OddZeros(n: nat, bits: seq<bool>)
    ensures Odd(Zeros(n) + bits) == Odd(bits)
  {
    if n == 0 {
      assert Zeros(n) + bits == bits;
    } else {
      assert (Zeros(n) + bits)[1..] == Zeros(n - 1) + bits;
      OddZeros(n - 1, bits);
    }
  }

  lemma OddGenerator()
    ensures Odd(GENERATOR)
  {
    var low := Zeros(4) + [true];
    var mid := Zeros(6) + ([true] + low);
    assert GENERATOR == Zeros(3) + ([true] + mid);
    OddZeros(3, [true] + mid);
    OddZeros(6, [true] + low);
    OddZeros(4, [true]);
    assert ([true] + mid)[1..] == mid && ([true] + low)[1..] == low;
  }

  /** The full generator has an even number of terms, so multiplication by x keeps parity. */
  lemma OddTimes(a: Poly)
    ensures Odd(Times(a)) == Odd(a)
  {
    var shifted := a[1..] + [false];
    OddAppend(a[1..], false);
    if a[0] {
      OddGenerator();
      OddXor(Times(a), shifted, GENERATOR);
    } else {
      assert Times(a) == shifted;
    }
  }

  lemma OddBitStep(crc: Poly, bit: bool)
    ensures Odd(BitStep(crc, bit)) == (Odd(crc) != bit)
  {
    OddTimes(crc[0 := crc[0] != bit]);
    assert crc[0 := crc[0] != bit][1..] == crc[1..];
  }

  lemma {:induction false} OddBitCrc(crc: Poly, bits: seq<bool>)
    ensures Odd(BitCrc(crc, bits)) == (Odd(crc) != Odd(bits))
    decreases |bits|
  {
    if bits != [] {
      OddBitStep(crc, bits[0]);
      OddBitCrc(BitStep(crc, bits[0]), bits[1..]);
    }
  }
}
