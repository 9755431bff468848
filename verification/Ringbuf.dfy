/** The ring buffer: bytes between two offsets of one array, possibly around its end. Equal
    offsets mean empty, so the array is never used in full. */
module RingbufModel {
  import opened Bytes
  import opened ByteQueue

  const RINGBUF_DEFAULT_SIZE := 4096

  /** The length of the second copy of ringbuf_peek when the content runs around the end: the
      bytes asked for, at most the used ones, less the right-hand run. */
  function LeftCopy(size: nat, offsetIn: nat, offsetOut: nat, n: nat): int
    requires offsetIn < offsetOut < size
  {
    Min(n, offsetIn + (size - offsetOut)) - (size - offsetOut)
  }

  /** That length, a size_t in the source, is not negative if and only if at least the
      right-hand run is asked for. */
  lemma LeftCopyIsSafe(size: nat, offsetIn: nat, offsetOut: nat, n: nat)
    requires offsetIn < offsetOut < size
    ensures LeftCopy(size, offsetIn, offsetOut, n) >= 0 <==> n >= size - offsetOut
  {
  }

  function Wrap(size: nat, i: nat): (j: nat)
    requires i < 2 * size
    ensures j < size
  {
    if i < size then i else i - size
  }

  lemma WrapIsMod(size: nat, i: nat)
    requires i < 2 * size
    ensures i % size == Wrap(size, i)
  {
    if i >= size {
      assert i == size + (i - size);
    }
  }

  /** How far place p is behind the write position. */
  function Behind(size: nat, offsetIn: nat, p: nat): (d: nat)
    requires offsetIn < size && p < size
    ensures d < size && Wrap(size, offsetIn + d) == p
  {
    if p >= offsetIn then p - offsetIn else p + (size - offsetIn)
  }

  /** The n bytes from a place on, around the end. */
  function Ringed(a: seq<byte>, from: nat, n: nat): (s: seq<byte>)
    requires from < |a| && n <= |a|
    ensures |s| == n && forall k | 0 <= k < n :: s[k] == a[Wrap(|a|, from + k)]
  {
    seq(n, k requires 0 <= k < n => a[Wrap(|a|, from + k)])
  }

  /** b is a with bytes stored in the n places from offsetIn on. */
  predicate Stored(a: seq<byte>, b: seq<byte>, offsetIn: nat, bytes: seq<byte>) {
    && |a| == |b| && offsetIn < |a| && |bytes| <= |a|
    && forall p | 0 <= p < |a| ::
         b[p] == if Behind(|a|, offsetIn, p) < |bytes| then bytes[Behind(|a|, offsetIn, p)] else a[p]
  }

  /** Storing behind the content appends. */
  lemma StoredAppends(a: seq<byte>, b: seq<byte>, from: nat, used: nat, bytes: seq<byte>)
    requires from < |a| && used + |bytes| <= |a| && used < |a|
    requires Stored(a, b, Wrap(|a|, from + used), bytes)
    ensures Ringed(b, from, used + |bytes|) == Ringed(a, from, used) + bytes
  {
    var i := Wrap(|a|, from + used);
    var s, t := Ringed(b, from, used + |bytes|), Ringed(a, from, used) + bytes;
    forall k | 0 <= k < |s|
      ensures s[k] == t[k]
    {
      var p := Wrap(|a|, from + k);
      assert Behind(|a|, i, p) == if k >= used then k - used else |a| - used + k;
      assert s[k] == b[p];
    }
  }

  lemma RingedDrop(a: seq<byte>, from: nat, used: nat, n: nat)
    requires from < |a| && n <= used < |a|
    ensures Ringed(a, Wrap(|a|, from + n), used - n) == Ringed(a, from, used)[n..]
  {
    var s, t := Ringed(a, Wrap(|a|, from + n), used - n), Ringed(a, from, used)[n..];
    forall k | 0 <= k < |s|
      ensures s[k] == t[k]
    {
      assert Wrap(|a|, Wrap(|a|, from + n) + k) == Wrap(|a|, from + (n + k));
    }
  }

  class Ringbuf {
    const raw: array<byte>
    var offsetIn: nat
    var offsetOut: nat

    ghost predicate Valid()
      reads this
    {
      offsetIn < raw.Length && offsetOut < raw.Length
    }

    ghost function Contents(): seq<byte>
      requires Valid()
      reads this, raw
    {
      Ringed(raw[..], offsetOut, Used())
    }

    /** ringbuf_new */
    constructor (size: nat)
      ensures Valid() && fresh(raw) && Contents() == []
      ensures raw.Length == if size == 0 then 4096 else size
    {
      raw := new byte[if size == 0 then RINGBUF_DEFAULT_SIZE else size](_ => NUL);
      offsetIn, offsetOut := 0, 0;
    }

    /** ringbuf_used */
    function Used(): (n: nat)
      requires Valid()
      reads this
      ensures n < raw.Length && Wrap(raw.Length, offsetOut + n) == offsetIn
    {
      if offsetIn >= offsetOut then offsetIn - offsetOut else offsetIn + (raw.Length - offsetOut)
    }

    /** ringbuf_spare */
    function Spare(): nat
      requires Valid()
      reads this
    {
      raw.Length - Used()
    }

    /** memcpy into the array. */
    method Copy(at: nat, bytes: seq<byte>)
      requires at + |bytes| <= raw.Length
      modifies raw
      ensures forall i | 0 <= i < raw.Length ::
                raw[i] == if at <= i < at + |bytes| then bytes[i - at] else old(raw[i])
    {
      forall i | 0 <= i < |bytes| {
        raw[at + i] := bytes[i];
      }
    }

    /** The copies of ringbuf_write: as many bytes as there is room for, in the places behind the
        content. */
    method Store(bytes: seq<byte>) returns (n: nat)
      requires Valid()
      modifies raw
      ensures n == Min(|bytes|, Spare())
      ensures Stored(old(raw[..]), raw[..], offsetIn, bytes[..n])
    {
      if offsetIn >= offsetOut {
        var right := raw.Length - offsetIn;
        if |bytes| <= right {
          Copy(offsetIn, bytes);
          n := |bytes|;
        } else {
          var left := Min(|bytes| - right, offsetOut);
          Copy(offsetIn, bytes[..right]);
          Copy(0, bytes[right..right + left]);
          n := right + left;
        }
      } else {
        n := Min(|bytes|, offsetOut - offsetIn);
        Copy(offsetIn, bytes[..n]);
      }
    }

    /** ringbuf_write. A write that leaves room is appended; one that fills the ring makes the
        offsets meet, and then everything is lost. */
    method Write(bytes: seq<byte>) returns (n: nat)
      requires Valid() && |bytes| < raw.Length
      modifies this`offsetIn, raw
      ensures Valid() && n == Min(|bytes|, old(Spare()))
      ensures Contents() == if |bytes| < old(Spare()) then old(Contents()) + bytes else []
    {
      ghost var used := Used();
      n := Store(bytes);
      StoredAppends(old(raw[..]), raw[..], offsetOut, used, bytes[..n]);
      WrapIsMod(raw.Length, offsetIn + n);
      offsetIn := (offsetIn + n) % raw.Length;
      assert Used() == if used + n < raw.Length then used + n else 0;
    }

    /** The content runs around the end and less than its right-hand run is asked for. */
    predicate SplitsRight(size: nat)
      reads this
    {
      offsetIn < offsetOut && offsetOut + size < raw.Length
    }

    /** ringbuf_peek. Where it would split the right-hand run its second copy has a negative length
        (LeftCopyIsSafe) and the behaviour is undefined: ok is false. */
    method Peek(size: nat) returns (ok: bool, bytes: seq<byte>)
      requires Valid()
      ensures ok <==> !SplitsRight(size)
      ensures ok ==> bytes == Contents()[..Min(size, Used())]
    {
      ok, bytes := true, [];
      var n := Min(size, Used());
      if offsetIn >= offsetOut {
        bytes := raw[offsetOut..offsetOut + n];
      } else {
        var right := raw.Length - offsetOut;
        ok := LeftCopy(raw.Length, offsetIn, offsetOut, size) >= 0;
        if ok {
          bytes := raw[offsetOut..] + raw[..n - right];
        }
      }
    }

    /** ringbuf_read */
    method Read(size: nat) returns (ok: bool, bytes: seq<byte>)
      requires Valid()
      modifies this`offsetOut
      ensures ok <==> old(!SplitsRight(size))
      ensures ok ==> Valid() && bytes == old(Contents())[..Min(size, old(Used()))]
      ensures ok ==> Contents() == old(Contents())[|bytes|..]
    {
      ok, bytes := Peek(size);
      if ok {
        ghost var used := Used();
        RingedDrop(raw[..], offsetOut, used, |bytes|);
        WrapIsMod(raw.Length, offsetOut + |bytes|);
        offsetOut := (offsetOut + |bytes|) % raw.Length;
        assert Used() == used - |bytes|;
      }
    }

    /** Any run of operations is a run of the byte queue, up to the first write that would fill
        the ring or read that would split the right-hand run. */
    method Run(ops: seq<Op>) returns (out: seq<byte>, done: nat)
      requires Valid()
      modifies this`offsetIn, this`offsetOut, raw
      ensures Valid() && done <= |ops|
      ensures Queue(out, Contents()) == QueueRun(old(Contents()), ops[..done])
      ensures done < |ops| ==>
                match ops[done]
                case Write(bytes) => |bytes| >= Spare()
                case Read(len) => SplitsRight(len)
    {
      out, done := [], 0;
      while done < |ops|
        invariant done <= |ops| && Valid()
        invariant Queue(out, Contents()) == QueueRun(old(Contents()), ops[..done])
      {
        QueueRunMore(old(Contents()), ops, done);
        match ops[done] {
          case Write(bytes) =>
            if |bytes| >= Spare() {
              return;
            }
            var _ := Write(bytes);
          case Read(len) =>
            if SplitsRight(len) {
              return;
            }
            var _, bytes := Read(len);
            out := out + bytes;
        }
        done := done + 1;
      }
    }
  }
}
