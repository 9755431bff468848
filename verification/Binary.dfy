/** Numbers as bit sequences, most significant bit first. */
module Binary {

  function Digit(b: bool): nat {
    if b then 1 else 0
  }

  function Value(bits: seq<bool>): nat {
    if bits == [] then 0 else 2 * Value(bits[..|bits| - 1]) + Digit(bits[|bits| - 1])
  }

  /** The k low bits of n. */
  function ToBits(k: nat, n: nat): (bits: seq<bool>)
    ensures |bits| == k
  {
    if k == 0 then [] else ToBits(k - 1, n / 2) + [n % 2 == 1]
  }

  lemma {:induction false} ToBitsValue(bits: seq<bool>)
    ensures ToBits(|bits|, Value(bits)) == bits
  {
    if bits != [] {
      ToBitsValue(bits[..|bits| - 1]);
      assert bits == bits[..|bits| - 1] + [bits[|bits| - 1]];
    }
  }

  function Pow2(k: nat): nat {
    if k == 0 then 1 else 2 * Pow2(k - 1)
  }

  lemma {:induction false} ValueBound(bits: seq<bool>)
    ensures Value(bits) < Pow2(|bits|)
  {
    if bits != [] {
      ValueBound(bits[..|bits| - 1]);
    }
  }

  lemma {:induction false} ValueToBits(k: nat, n: nat)
    requires n < Pow2(k)
    ensures Value(ToBits(k, n)) == n
  {
    if k > 0 {
      ValueToBits(k - 1, n / 2);
      assert ToBits(k, n)[..k - 1] == ToBits(k - 1, n / 2);
    }
  }

  function Nibble(b3: bool, b2: bool, b1: bool, b0: bool): nat {
    8 * Digit(b3) + 4 * Digit(b2) + 2 * Digit(b1) + Digit(b0)
  }

  /** Four more bits on the right. */
  lemma ValueAppend4(bits: seq<bool>, b3: bool, b2: bool, b1: bool, b0: bool)
    ensures Value(bits + [b3, b2, b1, b0]) == 16 * Value(bits) + Nibble(b3, b2, b1, b0)
  {
    var s3 := bits + [b3];
    var s2 := s3 + [b2];
    var s1 := s2 + [b1];
    assert s3[..|bits|] == bits && Value(s3) == 2 * Value(bits) + Digit(b3);
    assert s2[..|bits| + 1] == s3 && Value(s2) == 2 * Value(s3) + Digit(b2);
    assert s1[..|bits| + 2] == s2 && Value(s1) == 2 * Value(s2) + Digit(b1);
    assert bits + [b3, b2, b1, b0] == s1 + [b0] && (s1 + [b0])[..|bits| + 3] == s1;
  }

  lemma ValuePrefix(bits: seq<bool>, n: nat)
    requires 4 <= n <= |bits|
    ensures Value(bits[..n]) ==
            16 * Value(bits[..n - 4]) + Nibble(bits[n - 4], bits[n - 3], bits[n - 2], bits[n - 1])
  {
    ValueAppend4(bits[..n - 4], bits[n - 4], bits[n - 3], bits[n - 2], bits[n - 1]);
    assert bits[..n] == bits[..n - 4] + [bits[n - 4], bits[n - 3], bits[n - 2], bits[n - 1]];
  }

  lemma {:induction false} ValueConcat(a: seq<bool>, b: seq<bool>)
    ensures Value(a + b) == Pow2(|b|) * Value(a) + Value(b)
  {
    if b == [] {
      assert a + b == a;
    } else {
      var b' := b[..|b| - 1];
      assert (a + b)[..|a + b| - 1] == a + b';
      ValueConcat(a, b');
      assert 2 * (Pow2(|b'|) * Value(a)) == Pow2(|b|) * Value(a);
    }
  }
}
