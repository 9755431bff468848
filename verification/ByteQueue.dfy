/** The first-in first-out byte queue that the buffers implement. */
module ByteQueue {
  import opened Bytes

  function Min(a: nat, b: nat): nat {
    if a <= b then a else b
  }

  datatype Op = Write(bytes: seq<byte>) | Read(len: nat)

  /** What a byte queue gives out, and what it holds, after a run of operations. */
  datatype Queue = Queue(out: seq<byte>, held: seq<byte>)

  function QueueStep(q: Queue, op: Op): Queue {
    match op
    case Write(bytes) => Queue(q.out, q.held + bytes)
    case Read(len) => Queue(q.out + q.held[..Min(len, |q.held|)], q.held[Min(len, |q.held|)..])
  }

  function QueueRun(start: seq<byte>, ops: seq<Op>): Queue {
    if ops == [] then Queue([], start)
    else QueueStep(QueueRun(start, ops[..|ops| - 1]), ops[|ops| - 1])
  }

  lemma QueueRunMore(start: seq<byte>, ops: seq<Op>, k: nat)
    requires k < |ops|
    ensures QueueRun(start, ops[..k + 1]) == QueueStep(QueueRun(start, ops[..k]), ops[k])
  {
    assert ops[..k + 1][..k] == ops[..k];
  }

  function Written(ops: seq<Op>): seq<byte> {
    if ops == [] then []
    else
      Written(ops[..|ops| - 1])
      + match ops[|ops| - 1] case Write(bytes) => bytes case Read(_) => []
  }

  /** First in, first out, and nothing lost: over every run, what came out followed by what is
      held is what was there at the start followed by what was written. */
  lemma {:induction false} QueueConserves(start: seq<byte>, ops: seq<Op>)
    ensures QueueRun(start, ops).out + QueueRun(start, ops).held == start + Written(ops)
  {
    if ops != [] {
      QueueConserves(start, ops[..|ops| - 1]);
      var q := QueueRun(start, ops[..|ops| - 1]);
      match ops[|ops| - 1]
      case Write(bytes) =>
        assert q.out + (q.held + bytes) == q.out + q.held + bytes;
        assert start + Written(ops) == start + Written(ops[..|ops| - 1]) + bytes;
      case Read(len) =>
        var k := Min(len, |q.held|);
        assert q.held == q.held[..k] + q.held[k..];
        assert q.out + q.held[..k] + q.held[k..] == q.out + q.held;
        assert Written(ops) == Written(ops[..|ops| - 1]);
    }
  }
}
