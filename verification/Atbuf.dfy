/** The compacting byte buffer: unread bytes at offset_out .. offset_in of one array, moved to
    the front when space runs short, grown by doubling, and always followed by a NUL. */
module AtbufModel {
  import opened Bytes
  import opened ByteQueue

  const ATBUF_DEFAULT_SIZE := 4096

  class Atbuf {
    var raw: array<byte>
    var offsetIn: nat
    var offsetOut: nat

    /** The NUL is behind the unread bytes, and they are compact. */
    ghost predicate Valid()
      reads this, raw
    {
      offsetOut <= offsetIn < raw.Length && raw[offsetIn] == NUL && Compact()
    }

    /** What Tidy leaves: no garbage, or a quarter of the array at least spare and at most garbage. */
    ghost predicate Compact()
      reads this
    {
      offsetOut == 0 || (offsetIn + raw.Length / 4 <= raw.Length && offsetOut <= raw.Length / 4)
    }

    /** The unread bytes, oldest first. */
    ghost function Contents(): seq<byte>
      requires offsetOut <= offsetIn <= raw.Length
      reads this, raw
    {
      raw[offsetOut..offsetIn]
    }

    function Size(): nat
      reads this
    {
      raw.Length
    }

    function Used(): nat
      requires offsetOut <= offsetIn
      reads this
    {
      offsetIn - offsetOut
    }

    function Spare(): nat
      requires offsetIn <= raw.Length
      reads this
    {
      raw.Length - offsetIn
    }

    /** atbuf_new */
    constructor (size: nat)
      ensures Valid() && fresh(raw) && Contents() == []
      ensures Size() == if size == 0 then 4096 else size
    {
      raw := new byte[if size == 0 then ATBUF_DEFAULT_SIZE else size](_ => NUL);
      offsetIn, offsetOut := 0, 0;
    }

    /** atbuf_tidy: restores the NUL, and moves the unread bytes to the front when less than a
        quarter of the array is spare or more than a quarter is garbage. */
    method Tidy()
      requires offsetOut <= offsetIn < raw.Length
      modifies this`offsetIn, this`offsetOut, raw
      ensures Valid()
      ensures Contents() == old(Contents())
      ensures offsetOut == if old(Used() == 0 || Spare() < raw.Length / 4 || offsetOut > raw.Length / 4) then 0 else old(offsetOut)
      ensures offsetIn == offsetOut + old(Used())
    {
      if Used() == 0 {
        offsetIn, offsetOut := 0, 0;
      } else if Spare() < raw.Length / 4 || offsetOut > raw.Length / 4 {
        var n, from := Used(), offsetOut;
        forall i | 0 <= i < n {
          raw[i] := raw[from + i];
        }
        offsetIn, offsetOut := n, 0;
      }
      raw[offsetIn] := NUL;
    }

    /** atbuf_realloc; what a grown array holds behind the old one is left open, as in C. */
    method Realloc(len: nat)
      requires Valid() && len >= raw.Length
      modifies this`raw
      ensures Valid() && fresh(raw) && raw.Length == len
      ensures Contents() == old(Contents())
    {
      var bigger := new byte[len];
      forall i | 0 <= i < raw.Length {
        bigger[i] := raw[i];
      }
      raw := bigger;
    }

    /** atbuf_read_advance: drop the oldest len bytes, or all there are. */
    method ReadAdvance(len: nat) returns (used: nat)
      requires Valid()
      modifies this`offsetIn, this`offsetOut, raw
      ensures Valid()
      ensures Contents() == old(Contents())[if len < |old(Contents())| then len else |old(Contents())|..]
      ensures used == |Contents()|
      ensures raw == old(raw)
    {
      if offsetOut + len > offsetIn {
        offsetOut := offsetIn;
      } else {
        offsetOut := offsetOut + len;
      }
      Tidy();
      used := Used();
    }

    /** Bytes stored at the write position (the copy of atbuf_write, or recv into the buffer)
        followed by atbuf_write_advance. The requires is that function's assertion. */
    method Append(bytes: seq<byte>)
      requires Valid()
      requires offsetIn + |bytes| < raw.Length
      modifies this`offsetIn, this`offsetOut, raw
      ensures Valid()
      ensures Contents() == old(Contents()) + bytes
      ensures raw == old(raw)
    {
      var at := offsetIn;
      forall i | 0 <= i < |bytes| {
        raw[at + i] := bytes[i];
      }
      offsetIn := offsetIn + |bytes|;
      assert Contents() == old(Contents()) + bytes;
      Tidy();
    }

    /** atbuf_write: grows when the bytes do not fit. The source's assertion (ok) holds if and
        only if the bytes do not exactly fill the spare room; then all of them are taken. */
    method Write(bytes: seq<byte>) returns (ok: bool, n: nat)
      requires Valid()
      modifies this, raw
      ensures ok <==> |bytes| != old(Spare())
      ensures ok ==> Valid() && n == |bytes| && Contents() == old(Contents()) + bytes
      ensures raw == old(raw) || fresh(raw)
      ensures raw != old(raw) <==> |bytes| > old(Spare())
      ensures raw != old(raw) ==> raw.Length == 2 * if |bytes| < old(raw.Length) then old(raw.Length) else |bytes|
    {
      if |bytes| > Spare() {
        Tidy();
        Realloc(if raw.Length > |bytes| then raw.Length * 2 else |bytes| * 2);
      }
      n := Min(|bytes|, Spare());
      ok := offsetIn + n < raw.Length;
      if ok {
        Append(bytes[..n]);
      }
    }

    /** atbuf_peek */
    method Peek(len: nat) returns (bytes: seq<byte>)
      requires Valid()
      ensures bytes == Contents()[..if len <= |Contents()| then len else |Contents()|]
    {
      var n := if len <= Used() then len else Used();
      bytes := raw[offsetOut..offsetOut + n];
    }

    /** atbuf_read */
    method Read(len: nat) returns (bytes: seq<byte>)
      requires Valid()
      modifies this`offsetIn, this`offsetOut, raw
      ensures Valid() && raw == old(raw)
      ensures bytes + Contents() == old(Contents())
      ensures |bytes| == if len < |old(Contents())| then len else |old(Contents())|
    {
      bytes := Peek(len);
      ghost var all := Contents();
      assert bytes == all[..|bytes|];
      var _ := ReadAdvance(|bytes|);
    }

    /** The C string at the read position. It ends inside the buffer because of the NUL that
        every operation keeps behind the unread bytes. */
    method Text() returns (s: seq<byte>)
      requires Valid()
      ensures s == CString(Contents() + [NUL])
    {
      var i := offsetOut;
      while raw[i] != NUL
        invariant offsetOut <= i <= offsetIn
        invariant NUL !in raw[offsetOut..i]
        decreases offsetIn - i
      {
        i := i + 1;
      }
      s := raw[offsetOut..i];
      ghost var m := Contents() + [NUL];
      assert m == s + m[|s|..] && m[|s|] == NUL;
      CStringOf(s, m[|s|..]);
    }

    /** One operation of a run, unless it is a write that exactly fills the spare room. */
    method Apply(op: Op, before: seq<byte>) returns (out: seq<byte>)
      requires Valid() && !(op.Write? && |op.bytes| == Spare())
      modifies this, raw
      ensures Valid() && (raw == old(raw) || fresh(raw))
      ensures Queue(out, Contents()) == QueueStep(Queue(before, old(Contents())), op)
    {
      out := before;
      match op {
        case Write(bytes) =>
          var _, _ := Write(bytes);
        case Read(len) =>
          ghost var held := Contents();
          var bytes := Read(len);
          assert bytes == held[..|bytes|] && Contents() == held[|bytes|..];
          out := before + bytes;
      }
    }

    /** Any run of operations on a buffer is a run of the byte queue, up to the first write
        that exactly fills the spare room. */
    method Run(ops: seq<Op>) returns (out: seq<byte>, done: nat)
      requires Valid()
      modifies this, raw
      ensures Valid() && done <= |ops|
      ensures Queue(out, Contents()) == QueueRun(old(Contents()), ops[..done])
      ensures done < |ops| ==> ops[done].Write? && |ops[done].bytes| == Spare()
    {
      out, done := [], 0;
      while done < |ops|
        invariant done <= |ops| && Valid()
        invariant raw == old(raw) || fresh(raw)
        invariant Queue(out, Contents()) == QueueRun(old(Contents()), ops[..done])
      {
        if ops[done].Write? && |ops[done].bytes| == Spare() {
          return;
        }
        out := Apply(ops[done], out);
        QueueRunMore(old(Contents()), ops, done);
        done := done + 1;
      }
    }
  }
}
