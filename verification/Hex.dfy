/** Fixed-width hexadecimal fields: what "%.4x" prints and "%4x" and "%x" read back. */
module Hex {
  import opened Bytes

  predicate IsHex(c: byte) {
    '0' <= c <= '9' || 'a' <= c <= 'f' || 'A' <= c <= 'F'
  }

  function HexValue(c: byte): (v: nat)
    requires IsHex(c)
    ensures v < 16
  {
    if c <= '9' then c as int - '0' as int
    else if c <= 'F' then c as int - 'A' as int + 10
    else c as int - 'a' as int + 10
  }

  function HexDigit(v: nat): (c: byte)
    requires v < 16
    ensures IsHex(c) && HexValue(c) == v
  {
    if v < 10 then (v + '0' as int) as char else (v - 10 + 'a' as int) as char
  }

  /** The hexadecimal digits of a 16-bit number. */
  function Hex4(n: nat): (s: seq<byte>)
    requires n < 65536
    ensures |s| == 4 && forall i | 0 <= i < 4 :: IsHex(s[i])
  {
    [HexDigit(n / 4096), HexDigit(n / 256 % 16), HexDigit(n / 16 % 16), HexDigit(n % 16)]
  }

  /** Where a run of at most width hexadecimal digits that starts at i ends. */
  function RunEnd(s: seq<byte>, i: nat, width: nat): (e: nat)
    requires i <= |s|
    ensures i <= e <= |s| && e <= i + width
    ensures forall k | i <= k < e :: IsHex(s[k])
    ensures e < i + width && e < |s| ==> !IsHex(s[e])
    decreases width
  {
    if width == 0 || i == |s| || !IsHex(s[i]) then i else RunEnd(s, i + 1, width - 1)
  }

  function RunValue(s: seq<byte>): nat
    requires forall k | 0 <= k < |s| :: IsHex(s[k])
  {
    if s == [] then 0 else 16 * RunValue(s[..|s| - 1]) + HexValue(s[|s| - 1])
  }

  lemma RunValueMore(s: seq<byte>, c: byte)
    requires IsHex(c) && forall k | 0 <= k < |s| :: IsHex(s[k])
    ensures RunValue(s + [c]) == 16 * RunValue(s) + HexValue(c)
  {
    assert (s + [c])[..|s|] == s;
  }

  lemma DivTwice(n: nat)
    ensures n / 256 == n / 16 / 16 && n / 4096 == n / 256 / 16
  {
  }

  lemma Hex4Value(n: nat)
    requires n < 65536
    ensures RunValue(Hex4(n)) == n
  {
    var d3, d2, d1, d0 := HexDigit(n / 4096), HexDigit(n / 256 % 16), HexDigit(n / 16 % 16), HexDigit(n % 16);
    DivTwice(n);
    assert [] + [d3] == [d3] && [d3] + [d2] == [d3, d2] && [d3, d2] + [d1] == [d3, d2, d1] && [d3, d2, d1] + [d0] == Hex4(n);
    RunValueMore([], d3);
    RunValueMore([d3], d2);
    RunValueMore([d3, d2], d1);
    RunValueMore([d3, d2, d1], d0);
  }

  lemma {:induction false} RunValueBound(s: seq<byte>)
    requires |s| <= 4
    requires forall k | 0 <= k < |s| :: IsHex(s[k])
    ensures RunValue(s) < 65536
    ensures |s| <= 3 ==> RunValue(s) < 4096
    ensures |s| <= 2 ==> RunValue(s) < 256
    ensures |s| <= 1 ==> RunValue(s) < 16
  {
    if s != [] {
      RunValueBound(s[..|s| - 1]);
    }
  }
}
