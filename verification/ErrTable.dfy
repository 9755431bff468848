/** The error table: messages by error number, in 919 hash buckets and one global list. */
module ErrTable {
  import opened Options
  import opened Bytes
  import opened Decimal
  import opened Binary

  const BUCKETS := 919

  const UNKNOWN: seq<byte> := "Unknown errno"

  datatype Entry = Entry(errno: int, errmsg: seq<byte>)

  // ---------------------------------------------------------------- the hash

  /** Exclusive or, bit by bit. */
  function Xor(a: nat, b: nat): nat
    decreases a + b
  {
    if a == 0 then b else if b == 0 then a else 2 * Xor(a / 2, b / 2) + (a % 2 + b % 2) % 2
  }

  lemma {:induction false} XorBelow(a: nat, b: nat, k: nat)
    requires a < Pow2(k) && b < Pow2(k)
    ensures Xor(a, b) < Pow2(k)
  {
    if a != 0 && b != 0 {
      XorBelow(a / 2, b / 2, k - 1);
    }
  }

  type u8 = n: int | 0 <= n < 256

  function Mix(a: u8, b: u8): (c: u8) {
    XorBelow(a, b, 8);
    Xor(a, b)
  }

  /** Mixing the same byte in twice undoes it. */
  lemma {:induction false} XorTwice(a: nat, b: nat)
    ensures Xor(Xor(a, b), b) == a
    decreases a + b
  {
    if a == 0 {
      XorSelf(b);
    } else if b != 0 {
      XorTwice(a / 2, b / 2);
      var c := Xor(a, b);
      var d := Xor(c, b);
      XorHalves(a, b, c);
      XorHalves(c, b, d);
      SameParity(a, b, c, d);
    }
  }

  lemma SameParity(a: nat, b: nat, c: nat, d: nat)
    requires d / 2 == a / 2 && c % 2 == (a % 2 + b % 2) % 2 && d % 2 == (c % 2 + b % 2) % 2
    ensures d == a
  {
  }

  lemma XorHalves(a: nat, b: nat, c: nat)
    requires c == Xor(a, b)
    ensures c / 2 == Xor(a / 2, b / 2) && c % 2 == (a % 2 + b % 2) % 2
  {
  }

  lemma {:induction false} XorSelf(a: nat)
    ensures Xor(a, a) == 0
  {
    if a != 0 {
      XorSelf(a / 2);
    }
  }

  /** Byte k of the tag: all ones, mixed with every fourth byte of the buffer from k on. */
  function TagByte(buf: seq<byte>, k: nat): u8
    requires k < 4
  {
    if buf == [] then 255
    else
      var n := |buf| - 1;
      if n % 4 == k then Mix(TagByte(buf[..n], k), buf[n] as int) else TagByte(buf[..n], k)
  }

  /** Four bytes in memory as a little-endian unsigned int. */
  function LittleEndian(b0: nat, b1: nat, b2: nat, b3: nat): nat {
    b0 + 256 * (b1 + 256 * (b2 + 256 * b3))
  }

  function Tag(buf: seq<byte>): nat {
    LittleEndian(TagByte(buf, 0), TagByte(buf, 1), TagByte(buf, 2), TagByte(buf, 3))
  }

  method CalcTag(buf: seq<byte>) returns (retval: nat)
    ensures retval == Tag(buf)
  {
    var tag := new u8[4](_ => 255);
    for i := 0 to |buf|
      invariant forall k | 0 <= k < 4 :: tag[k] == TagByte(buf[..i], k)
    {
      assert buf[..i + 1][..i] == buf[..i];
      tag[i % 4] := Mix(tag[i % 4], buf[i] as int);
    }
    assert buf[..|buf|] == buf;
    retval := LittleEndian(tag[0], tag[1], tag[2], tag[3]);
  }

  /** The bucket of an error number: that of its decimal digits. */
  function Hash(errno: int): (b: nat)
    ensures b < BUCKETS
  {
    Tag(Printed(errno)) % BUCKETS
  }

  // ---------------------------------------------------------------- the simple table

  /** The first entry with this number, in a list that is newest first. */
  function Find(list: seq<Entry>, errno: int): Option<Entry> {
    if list == [] then None
    else if list[0].errno == errno then Some(list[0])
    else Find(list[1..], errno)
  }

  function Register(list: seq<Entry>, e: Entry): seq<Entry> {
    if Find(list, e.errno).Some? then list else [e] + list
  }

  /** The list after a run of registrations. */
  function RegisterAll(run: seq<Entry>): seq<Entry> {
    if run == [] then [] else Register(RegisterAll(run[..|run| - 1]), run[|run| - 1])
  }

  /** The map that a run of registrations stands for: the first message given for a number stays. */
  function Messages(run: seq<Entry>): map<int, seq<byte>> {
    if run == [] then map[] else Messages(run[1..])[run[0].errno := run[0].errmsg]
  }

  ghost predicate Distinct(list: seq<Entry>) {
    forall i, j | 0 <= i < j < |list| :: list[i].errno != list[j].errno
  }

  function StrErr(list: seq<Entry>, errno: int): seq<byte> {
    match Find(list, errno)
    case None => UNKNOWN
    case Some(e) => e.errmsg
  }

  lemma {:induction false} FindSound(list: seq<Entry>, errno: int)
    ensures var f := Find(list, errno);
            && (f.Some? ==> f.value in list && f.value.errno == errno)
            && (f.None? ==> forall e | e in list :: e.errno != errno)
  {
    if list != [] && list[0].errno != errno {
      FindSound(list[1..], errno);
      assert forall e | e in list :: e == list[0] || e in list[1..];
    }
  }

  lemma {:induction false} MessagesSnoc(run: seq<Entry>, e: Entry)
    ensures Messages(run + [e]) == if e.errno in Messages(run) then Messages(run) else Messages(run)[e.errno := e.errmsg]
  {
    if run == [] {
      assert [e][1..] == [];
    } else {
      MessagesSnoc(run[1..], e);
      assert (run + [e])[1..] == run[1..] + [e];
    }
  }

  /** What lookup finds after any run of registrations is what the map says. */
  lemma {:induction false} FindIsMap(run: seq<Entry>, errno: int)
    ensures var f := Find(RegisterAll(run), errno);
            && (f.Some? <==> errno in Messages(run))
            && (f.Some? ==> f.value == Entry(errno, Messages(run)[errno]))
  {
    if run != [] {
      var before, e := run[..|run| - 1], run[|run| - 1];
      assert run == before + [e];
      FindIsMap(before, errno);
      FindIsMap(before, e.errno);
      MessagesSnoc(before, e);
      assert ([e] + RegisterAll(before))[1..] == RegisterAll(before);
    }
  }

  lemma {:induction false} RunIsDistinct(run: seq<Entry>)
    ensures Distinct(RegisterAll(run))
  {
    if run != [] {
      var list, e := RegisterAll(run[..|run| - 1]), run[|run| - 1];
      RunIsDistinct(run[..|run| - 1]);
      FindSound(list, e.errno);
    }
  }

  /** The first message registered for a number is the one that is returned, ever after. */
  lemma {:induction false} FirstMessageWins(run: seq<Entry>, i: nat, later: seq<Entry>)
    requires i < |run| && forall j | 0 <= j < i :: run[j].errno != run[i].errno
    ensures StrErr(RegisterAll(run + later), run[i].errno) == run[i].errmsg
  {
    FindIsMap(run + later, run[i].errno);
    FirstInMap(run + later, i);
  }

  lemma {:induction false} FirstInMap(run: seq<Entry>, i: nat)
    requires i < |run| && forall j | 0 <= j < i :: run[j].errno != run[i].errno
    ensures run[i].errno in Messages(run) && Messages(run)[run[i].errno] == run[i].errmsg
  {
    if i > 0 {
      FirstInMap(run[1..], i - 1);
    }
  }

  /** A number that was never registered gives the unknown text. */
  lemma {:induction false} NeverRegistered(run: seq<Entry>, errno: int)
    requires forall i | 0 <= i < |run| :: run[i].errno != errno
    ensures StrErr(RegisterAll(run), errno) == "Unknown errno"
  {
    FindIsMap(run, errno);
    NotInMap(run, errno);
  }

  lemma {:induction false} NotInMap(run: seq<Entry>, errno: int)
    requires forall i | 0 <= i < |run| :: run[i].errno != errno
    ensures errno !in Messages(run)
  {
    if run != [] {
      NotInMap(run[1..], errno);
    }
  }

  // ---------------------------------------------------------------- the buckets

  /** The entries of a list that belong in a bucket, in order. */
  function Bucket(list: seq<Entry>, b: nat): seq<Entry> {
    if list == [] then []
    else (if Hash(list[0].errno) == b then [list[0]] else []) + Bucket(list[1..], b)
  }

  lemma {:induction false} FindInBucket(list: seq<Entry>, errno: int)
    ensures Find(Bucket(list, Hash(errno)), errno) == Find(list, errno)
  {
    if list != [] {
      FindInBucket(list[1..], errno);
      var rest := Bucket(list[1..], Hash(errno));
      assert ([list[0]] + rest)[1..] == rest && [] + rest == rest;
    }
  }

  lemma BucketCons(e: Entry, list: seq<Entry>, b: nat)
    ensures Bucket([e] + list, b) == if Hash(e.errno) == b then [e] + Bucket(list, b) else Bucket(list, b)
  {
    assert ([e] + list)[1..] == list && [] + Bucket(list, b) == Bucket(list, b);
  }

  class Errors {
    const hlist: array<seq<Entry>>
    var list: seq<Entry>

    /** The buckets hold exactly the list's entries, each where it hashes to, newest first. */
    ghost predicate Valid()
      reads this, hlist
    {
      hlist.Length == BUCKETS && forall b | 0 <= b < BUCKETS :: hlist[b] == Bucket(list, b)
    }

    constructor ()
      ensures Valid() && fresh(hlist) && list == []
    {
      hlist := new seq<Entry>[BUCKETS](_ => []);
      list := [];
    }

    /** find_errx */
    method FindErrx(errno: int) returns (found: Option<Entry>)
      requires Valid()
      ensures found == Find(list, errno)
    {
      var tag := CalcTag(Printed(errno));
      var head := hlist[tag % BUCKETS];
      FindInBucket(list, errno);
      for i := 0 to |head|
        invariant Find(head, errno) == Find(head[i..], errno)
      {
        assert head[i..][1..] == head[i + 1..];
        if head[i].errno == errno {
          return Some(head[i]);
        }
      }
      return None;
    }

    /** errx_register */
    method ErrxRegister(e: Entry) returns (rc: int)
      requires Valid()
      modifies this, hlist
      ensures Valid()
      ensures list == Register(old(list), e)
      ensures rc == if Find(old(list), e.errno).Some? then -1 else 0
    {
      var found := FindErrx(e.errno);
      if found.Some? {
        return -1;
      }
      var tag := CalcTag(Printed(e.errno));
      var head := tag % BUCKETS;
      forall b | 0 <= b < BUCKETS
        ensures Bucket([e] + list, b) == if head == b then [e] + Bucket(list, b) else Bucket(list, b)
      {
        BucketCons(e, list, b);
      }
      hlist[head] := [e] + hlist[head];
      list := [e] + list;
      return 0;
    }

    /** errx_strerr */
    method ErrxStrerr(errno: int) returns (msg: seq<byte>)
      requires Valid()
      ensures msg == StrErr(list, errno)
    {
      var found := FindErrx(errno);
      return if found.Some? then found.value.errmsg else UNKNOWN;
    }

    /** A run of registrations on a new table, and a lookup after it. */
    method Run(run: seq<Entry>, errno: int) returns (msg: seq<byte>)
      requires Valid() && list == []
      modifies this, hlist
      ensures Valid() && Distinct(list) && list == RegisterAll(run)
      ensures msg == if errno in Messages(run) then Messages(run)[errno] else UNKNOWN
    {
      for i := 0 to |run|
        invariant Valid() && list == RegisterAll(run[..i])
      {
        assert run[..i + 1][..i] == run[..i];
        var _ := ErrxRegister(run[i]);
      }
      assert run[..|run|] == run;
      RunIsDistinct(run);
      FindIsMap(run, errno);
      msg := ErrxStrerr(errno);
    }
  }
}
