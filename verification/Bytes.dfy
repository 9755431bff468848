/** Bytes, C strings and the string searches the source takes from the C library. */
module Bytes {

  /** A C char: a character with a code below 256. */
  type byte = c: char | c as int < 256 witness '\0'

  const NUL: byte := '\0'

  predicate IsText(s: seq<byte>) {
    NUL !in s
  }

  /** strchr: the first index of c, or |s|. */
  function IndexOf(s: seq<byte>, c: byte): (i: nat)
    ensures i <= |s|
    ensures i < |s| ==> s[i] == c
    ensures c !in s[..i]
  {
    if s == [] || s[0] == c then 0
    else
      var i := 1 + IndexOf(s[1..], c);
      assert s[..i] == [s[0]] + s[1..][..i - 1];
      i
  }

  /** The C string at a place in memory: the bytes before the first NUL. */
  function CString(m: seq<byte>): (s: seq<byte>)
    ensures IsText(s) && s <= m
    ensures |s| < |m| ==> m[|s|] == NUL
  {
    m[..IndexOf(m, NUL)]
  }

  lemma CStringOf(s: seq<byte>, rest: seq<byte>)
    requires IsText(s) && (rest == [] || rest[0] == NUL)
    ensures CString(s + rest) == s
  {
    var m := s + rest;
    var t := CString(m);
    assert forall k | 0 <= k < |s| :: m[k] == s[k] && m[k] != NUL;
    assert |t| >= |s|;
    assert forall k | 0 <= k < |t| :: t[k] == m[k] && t[k] != NUL;
    assert rest != [] ==> m[|s|] == NUL;
    assert |t| == |s|;
  }

  predicate PairAt(s: seq<byte>, i: nat, a: byte, b: byte) {
    i + 1 < |s| && s[i] == a && s[i + 1] == b
  }

  /** strstr with a two-byte needle: the first index, or |s|. */
  function FindPair(s: seq<byte>, a: byte, b: byte): (i: nat)
    ensures i == |s| || PairAt(s, i, a, b)
    ensures forall j | 0 <= j < i :: !PairAt(s, j, a, b)
  {
    FindPairFrom(s, a, b, 0)
  }

  function FindPairFrom(s: seq<byte>, a: byte, b: byte, k: nat): (i: nat)
    requires k <= |s|
    ensures k <= i && (i == |s| || PairAt(s, i, a, b))
    ensures forall j | k <= j < i :: !PairAt(s, j, a, b)
    decreases |s| - k
  {
    if k == |s| || PairAt(s, k, a, b) then k else FindPairFrom(s, a, b, k + 1)
  }

  lemma FirstPair(s: seq<byte>, a: byte, b: byte, i: nat)
    requires PairAt(s, i, a, b)
    requires forall j | 0 <= j < i :: !PairAt(s, j, a, b)
    ensures FindPair(s, a, b) == i
  {
    assert FindPair(s, a, b) <= i;
  }

  /** Cutting a text off does not move the first occurrence, it only can lose it. */
  lemma FirstPairOfPrefix(s: seq<byte>, a: byte, b: byte, n: nat)
    requires n <= |s| && FindPair(s, a, b) < |s|
    ensures var i := FindPair(s, a, b);
            FindPair(s[..n], a, b) == if i + 2 <= n then i else n
  {
    var i := FindPair(s, a, b);
    assert forall j | 0 <= j < n :: PairAt(s[..n], j, a, b) ==> PairAt(s, j, a, b);
    if i + 2 <= n {
      FirstPair(s[..n], a, b, i);
    }
  }

  predicate IsDigit(c: byte) {
    '0' <= c <= '9'
  }

  /** isspace */
  predicate IsSpace(c: byte) {
    c == ' ' || '\t' <= c <= '\r'
  }
}
