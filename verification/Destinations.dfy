/** Which station a packet's header names: the number that sscanf(header, "/%d/") reads, told from
    the header's text. */
module Destinations {
  import opened Options
  import opened Bytes
  import opened Decimal
  import opened BusModel

  /** White space, an optional sign, digits, and what does not go on with a digit. */
  predicate NumberText(space: seq<byte>, sign: seq<byte>, digits: seq<byte>, rest: seq<byte>) {
    && (forall i | 0 <= i < |space| :: IsSpace(space[i]))
    && (sign == [] || sign == ['+'] || sign == ['-'])
    && digits != [] && AllDigits(digits)
    && (rest == [] || !IsDigit(rest[0]))
  }

  /** The station id a signed number stands for: its low 16 bits, after sscanf has held it within a
      64-bit long. */
  predicate StandsFor(negative: bool, n: nat, id: nat) {
    && id < 65536
    && if negative then
         if n <= 0x8000_0000_0000_0000 then (id + n) % 65536 == 0 else id == 0
       else
         if n < 0x8000_0000_0000_0000 then id == n % 65536 else id == 65535
  }

  lemma {:induction false} SpaceSkipped(space: seq<byte>, s: seq<byte>)
    requires forall i | 0 <= i < |space| :: IsSpace(space[i])
    requires s == [] || !IsSpace(s[0])
    ensures SkipSpace(space + s) == s
  {
    if space == [] {
      assert space + s == s;
    } else {
      assert (space + s)[1..] == space[1..] + s;
      SpaceSkipped(space[1..], s);
    }
  }

  lemma {:induction false} DigitsTaken(digits: seq<byte>, rest: seq<byte>)
    requires AllDigits(digits) && (rest == [] || !IsDigit(rest[0]))
    ensures LeadingDigits(digits + rest) == digits
  {
    if digits == [] {
      assert digits + rest == rest;
    } else {
      assert (digits + rest)[1..] == digits[1..] + rest;
      DigitsTaken(digits[1..], rest);
    }
  }

  lemma Low16StandsFor(negative: bool, n: nat)
    ensures StandsFor(negative, n, Low16(negative, n))
  {
    if negative && n <= 0x8000_0000_0000_0000 {
      var q, r := n / 65536, n % 65536;
      assert n == 65536 * q + r;
      if r != 0 {
        assert Low16(negative, n) + n == 65536 * (q + 1);
      }
    }
  }

  /** A header that starts with a slash and a number names the station that number stands for,
      whatever follows it. */
  lemma DestinationOf(space: seq<byte>, sign: seq<byte>, digits: seq<byte>, rest: seq<byte>)
    requires NumberText(space, sign, digits, rest)
    ensures var d := Destination(['/'] + (space + (sign + (digits + rest))));
            d.Some? && StandsFor(sign == ['-'], Number(digits), d.value)
  {
    var number := digits + rest;
    var signed := sign + number;
    var header := ['/'] + (space + signed);
    assert header[1..] == space + signed;
    assert !IsSpace(signed[0]);
    SpaceSkipped(space, signed);
    if sign == [] {
      assert signed == number && number[0] == digits[0];
    } else {
      assert signed[0] == sign[0] && signed[1..] == number;
    }
    DigitsTaken(digits, rest);
    Low16StandsFor(sign == ['-'], Number(digits));
  }

  /** A header that names station n as a writer prints it. */
  function Naming(n: nat, rest: seq<byte>): (header: seq<byte>) {
    ['/'] + (Digits(n) + rest)
  }

  lemma PlainDestination(n: nat, rest: seq<byte>)
    requires rest == [] || !IsDigit(rest[0])
    ensures Destination(Naming(n, rest)) == Some(if n < 0x8000_0000_0000_0000 then n % 65536 else 65535)
  {
    NumberOfDigits(n);
    var number := Digits(n) + rest;
    assert [] + ([] + number) == number;
    DestinationOf([], [], Digits(n), rest);
  }

  // ---------------------------------------------------------------- headers that name none

  ghost predicate Names(header: seq<byte>, space: seq<byte>, sign: seq<byte>, digits: seq<byte>, rest: seq<byte>) {
    NumberText(space, sign, digits, rest) && header == ['/'] + (space + (sign + (digits + rest)))
  }

  ghost predicate NamesStation(header: seq<byte>) {
    exists space, sign, digits, rest :: Names(header, space, sign, digits, rest)
  }

  lemma {:induction false} SpaceSplit(s: seq<byte>) returns (space: seq<byte>)
    ensures s == space + SkipSpace(s) && forall i | 0 <= i < |space| :: IsSpace(space[i])
  {
    space := [];
    if s != [] && IsSpace(s[0]) {
      var more := SpaceSplit(s[1..]);
      space := [s[0]] + more;
    }
  }

  lemma {:induction false} DigitsSplit(s: seq<byte>) returns (rest: seq<byte>)
    ensures s == LeadingDigits(s) + rest && (rest == [] || !IsDigit(rest[0]))
  {
    rest := s;
    if s != [] && IsDigit(s[0]) {
      rest := DigitsSplit(s[1..]);
    }
  }

  /** A header names no station if and only if it does not start with a slash and a number. */
  lemma NoDestinationIff(header: seq<byte>)
    ensures Destination(header) == None <==> !NamesStation(header)
  {
    if NamesStation(header) {
      var space, sign, digits, rest :| Names(header, space, sign, digits, rest);
      DestinationOf(space, sign, digits, rest);
    }
    if Destination(header).Some? {
      var space := SpaceSplit(header[1..]);
      var s := SkipSpace(header[1..]);
      var sign: seq<byte> := if s[0] == '-' || s[0] == '+' then [s[0]] else [];
      var number := s[|sign|..];
      var rest := DigitsSplit(number);
      assert header == ['/'] + (space + (sign + (LeadingDigits(number) + rest)));
      assert Names(header, space, sign, LeadingDigits(number), rest);
    }
  }
}
