/** The server's receive buffer and expected sequence number as a value. */
module ReceiveBuffer {
  import opened Segments

  datatype Receiver = Receiver(expected: nat, buf: seq<byte>)

  /** The guard under which a payload is saved. */
  predicate Fits(r: Receiver, length: nat) {
    RECEIVE_BUF_SIZE > length + |r.buf|
  }

  predicate Refused(r: Receiver, c: Chunk) {
    c.seqNum == r.expected && !Fits(r, |c.data|)
  }

  predicate Accepts(r: Receiver, c: Chunk) {
    c.seqNum == r.expected && Fits(r, |c.data|)
  }

  /** Saving a payload behind what is there already; a payload that does not fit changes nothing. */
  function AfterSave(r: Receiver, c: Chunk): Receiver {
    if Fits(r, |c.data|) then Receiver(|c.data| + c.seqNum, r.buf + c.data) else r
  }

  /** After a data segment. Unless it was refused, it is answered with the new `expected`. */
  function AfterData(r: Receiver, c: Chunk): Receiver {
    if c.seqNum == r.expected then AfterSave(r, c) else r
  }

  function AfterRead(r: Receiver, length: nat): Receiver
    requires length <= |r.buf|
  {
    r.(buf := r.buf[length..])
  }

  /** A buffer of `capacity` bytes has room for everything the guard lets through exactly when it
      is at least one byte short of the nominal size. */
  lemma GuardFitsIff(capacity: nat)
    ensures (forall r, length: nat | Fits(r, length) :: |r.buf| + length <= capacity) <==>
            RECEIVE_BUF_SIZE - 1 <= capacity
  {
    if capacity < RECEIVE_BUF_SIZE - 1 {
      assert Fits(Receiver(0, []), capacity + 1);
    }
  }

  // ---------------------------------------------------------------- the buffer as a queue

  datatype Op = Save(c: Chunk) | Take(length: nat)

  /** Runs saves and reads in any order; a read for more than there is waits, that is, does nothing yet. */
  function AfterOps(r: Receiver, ops: seq<Op>): Receiver {
    if ops == [] then r else
    var m := AfterOps(r, ops[..|ops| - 1]);
    match ops[|ops| - 1]
    case Save(c) => AfterSave(m, c)
    case Take(length) => if length <= |m.buf| then AfterRead(m, length) else m
  }

  /** The bytes of the payloads that fitted, in the order they came. */
  function Stored(r: Receiver, ops: seq<Op>): seq<byte> {
    if ops == [] then [] else
    var m := AfterOps(r, ops[..|ops| - 1]);
    match ops[|ops| - 1]
    case Save(c) => Stored(r, ops[..|ops| - 1]) + (if Fits(m, |c.data|) then c.data else [])
    case Take(_) => Stored(r, ops[..|ops| - 1])
  }

  /** The bytes handed to readers, in the order they went. */
  function Taken(r: Receiver, ops: seq<Op>): seq<byte> {
    if ops == [] then [] else
    var m := AfterOps(r, ops[..|ops| - 1]);
    match ops[|ops| - 1]
    case Save(_) => Taken(r, ops[..|ops| - 1])
    case Take(length) => Taken(r, ops[..|ops| - 1]) + (if length <= |m.buf| then m.buf[..length] else [])
  }

  /** Conservation: whatever the interleaving, what went in is what came out followed by what is
      still there, and the buffer never reaches its nominal size. */
  lemma {:induction false} BufferIsFifo(r: Receiver, ops: seq<Op>)
    requires |r.buf| < RECEIVE_BUF_SIZE
    ensures r.buf + Stored(r, ops) == Taken(r, ops) + AfterOps(r, ops).buf
    ensures |AfterOps(r, ops).buf| < RECEIVE_BUF_SIZE
  {
    if ops == [] {
      assert r.buf + [] == [] + r.buf;
    } else {
      var init := ops[..|ops| - 1];
      BufferIsFifo(r, init);
      var m := AfterOps(r, init);
      match ops[|ops| - 1]
      case Save(c) =>
        if Fits(m, |c.data|) {
          assert r.buf + (Stored(r, init) + c.data) == (r.buf + Stored(r, init)) + c.data;
          assert Taken(r, init) + (m.buf + c.data) == (Taken(r, init) + m.buf) + c.data;
        } else {
          assert Stored(r, init) + [] == Stored(r, init);
        }
      case Take(length) =>
        if length <= |m.buf| {
          assert m.buf == m.buf[..length] + m.buf[length..];
          assert (Taken(r, init) + m.buf[..length]) + m.buf[length..] == Taken(r, init) + m.buf;
        } else {
          assert Taken(r, init) + [] == Taken(r, init);
        }
    }
  }
}
