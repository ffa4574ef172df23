/** Delimiter framing: `!&` payload `!#`, read one byte at a time by a four-state automaton. */
module Framing {
  import opened Segments

  const BANG: byte := 33
  const HASH: byte := 35
  const AMP: byte := 38

  /** What a reader does about the length of a frame's payload. `Asserted`: anything but the expected
      size aborts the process. `AnyLength`: every length is handed over. `CopiesSize`: the expected
      number of bytes is copied from the front of the buffer, however many arrived. */
  datatype LengthRule = Asserted | AnyLength | CopiesSize

  /** One of the receive functions. `fallsThrough`: in the first state a byte that is not `!` is also
      tried as the second delimiter byte. `size` bytes of payload are expected; the buffer has two more. */
  datatype Reader = Reader(fallsThrough: bool, size: nat, rule: LengthRule)

  const SEG_BYTES := 24 + MAX_SEG_LEN
  const SENDSEG_ARG_BYTES := 4 + SEG_BYTES
  const MNP_PKT_BYTES := 12 + 1488
  const SENDPKT_ARG_BYTES := 4 + MNP_PKT_BYTES

  const MNP_RECVSEG := Reader(true, SENDSEG_ARG_BYTES, Asserted)
  const GETSEG_TO_SEND := Reader(false, SENDSEG_ARG_BYTES, Asserted)
  const OVERLAY_RECVPKT := Reader(false, MNP_PKT_BYTES, Asserted)
  const GETPKT_TO_SEND := Reader(false, SENDPKT_ARG_BYTES, Asserted)
  const RECVPKT := Reader(false, MNP_PKT_BYTES, AnyLength)
  const LAB2_RECVSEG := Reader(false, SEG_BYTES, CopiesSize)

  datatype Phase = Start1 | Start2 | Recv | Stop1

  /** What one call comes to. `Overrun`: the next byte would fall outside the buffer, and the model
      stops where the program's behaviour is undefined. `Partial`: more bytes were copied out than have
      been received; they start with `head`, and what follows it is whatever the buffer held before.
      `k` counts the frames put to the loss test. */
  datatype Result =
    | Received(payload: seq<byte>, rest: seq<byte>, k: nat)
    | Aborted
    | Partial(head: seq<byte>, rest: seq<byte>, k: nat)
    | Overrun
    | EndOfInput

  function Frame(payload: seq<byte>): seq<byte> {
    [BANG, AMP] + payload + [BANG, HASH]
  }

  /** The automaton on the bytes still to come, with `acc` in the buffer. `lost(k)` says whether the
      `k`-th complete frame is dropped. */
  function Run(rd: Reader, lost: nat -> bool, k: nat, phase: Phase, acc: seq<byte>, s: seq<byte>): Result
    decreases |s|, 0
  {
    if s == [] then EndOfInput else
    var c, t := s[0], s[1..];
    match phase
    case Start1 =>
      if c == BANG then Run(rd, lost, k, Start2, acc, t)
      else if rd.fallsThrough && c == AMP then Run(rd, lost, k, Recv, acc, t)
      else Run(rd, lost, k, Start1, acc, t)
    case Start2 => Run(rd, lost, k, if c == AMP then Recv else Start1, acc, t)
    case Recv =>
      if |acc| >= rd.size + 2 then Overrun
      else Run(rd, lost, k, if c == BANG then Stop1 else Recv, acc + [c], t)
    case Stop1 =>
      if |acc| >= rd.size + 2 then Overrun
      else if c == HASH then Complete(rd, lost, k, acc + [c], t)
      else Run(rd, lost, k, if c == BANG then Stop1 else Recv, acc + [c], t)
  }

  /** What becomes of a frame, once the buffer holds its payload and its last two bytes. */
  function Complete(rd: Reader, lost: nat -> bool, k: nat, held: seq<byte>, t: seq<byte>): Result
    decreases |t|, 1
  {
    var payload := if |held| < 2 then [] else held[..|held| - 2];
    if rd.rule == Asserted && |payload| != rd.size then Aborted
    else if lost(k) then Run(rd, lost, k + 1, Start1, [], t)
    else if rd.rule == CopiesSize then
      if |held| < rd.size then Partial(held, t, k + 1) else Received(held[..rd.size], t, k + 1)
    else Received(payload, t, k + 1)
  }

  function Receive(rd: Reader, lost: nat -> bool, k: nat, s: seq<byte>): Result {
    Run(rd, lost, k, Start1, [], s)
  }

  // ---------------------------------------------------------------- characterisation

  ghost predicate StopAt(p: seq<byte>, i: int) {
    0 <= i < |p| - 1 && p[i] == BANG && p[i + 1] == HASH
  }

  ghost predicate HasStop(p: seq<byte>) {
    exists i :: StopAt(p, i)
  }

  lemma StopFreeTail(p: seq<byte>)
    requires p != [] && !HasStop(p)
    ensures !HasStop(p[1..])
    ensures p[0] == BANG && |p| > 1 ==> p[1] != HASH
  {
    if HasStop(p[1..]) {
      var i :| StopAt(p[1..], i);
      assert StopAt(p, i + 1);
    }
    assert !StopAt(p, 0);
  }

  /** Inside a frame, a stretch without `!#` is collected whole, runs of `!` included, and the first
      `!#` ends it. */
  lemma {:induction false} RunCollects(rd: Reader, lost: nat -> bool, k: nat, phase: Phase, acc: seq<byte>,
                                       p: seq<byte>, t: seq<byte>)
    requires phase == Recv || (phase == Stop1 && acc != [] && (p != [] ==> p[0] != HASH))
    requires !HasStop(p) && |acc| + |p| <= rd.size
    ensures Run(rd, lost, k, phase, acc, p + [BANG, HASH] + t) == Complete(rd, lost, k, acc + p + [BANG, HASH], t)
    decreases |p|
  {
    var s := p + [BANG, HASH] + t;
    if p == [] {
      assert s[1..] == [HASH] + t;
      assert ([HASH] + t)[1..] == t;
      assert acc + [BANG] + [HASH] == acc + p + [BANG, HASH];
    } else {
      StopFreeTail(p);
      assert s[1..] == p[1..] + [BANG, HASH] + t;
      RunCollects(rd, lost, k, if p[0] == BANG then Stop1 else Recv, acc + [p[0]], p[1..], t);
      assert acc + [p[0]] + p[1..] + [BANG, HASH] == acc + p + [BANG, HASH];
    }
  }

  lemma ReceiveFrame(rd: Reader, lost: nat -> bool, k: nat, p: seq<byte>, t: seq<byte>)
    requires !HasStop(p) && |p| <= rd.size
    ensures Receive(rd, lost, k, Frame(p) + t) == Complete(rd, lost, k, p + [BANG, HASH], t)
  {
    var s := Frame(p) + t;
    assert s[1..] == [AMP] + (p + [BANG, HASH] + t);
    assert ([AMP] + (p + [BANG, HASH] + t))[1..] == p + [BANG, HASH] + t;
    assert Receive(rd, lost, k, s) == Run(rd, lost, k, Start2, [], s[1..]);
    assert Receive(rd, lost, k, s) == Run(rd, lost, k, Recv, [], p + [BANG, HASH] + t);
    RunCollects(rd, lost, k, Recv, [], p, t);
    assert [] + p + [BANG, HASH] == p + [BANG, HASH];
  }

  lemma FirstStop(p: seq<byte>) returns (i: nat)
    requires HasStop(p)
    ensures StopAt(p, i) && !HasStop(p[..i])
    decreases |p|
  {
    var j :| StopAt(p, j);
    if HasStop(p[..j]) {
      i := FirstStop(p[..j]);
      assert p[..j][..i] == p[..i];
    } else {
      i := j;
    }
  }

  /** A payload with `!#` inside is cut off at the first one. */
  lemma ReceiveCut(rd: Reader, lost: nat -> bool, k: nat, p: seq<byte>, t: seq<byte>) returns (i: nat)
    requires HasStop(p) && |p| <= rd.size
    ensures StopAt(p, i) && !HasStop(p[..i])
    ensures Receive(rd, lost, k, Frame(p) + t) == Complete(rd, lost, k, p[..i + 2], p[i + 2..] + [BANG, HASH] + t)
  {
    i := FirstStop(p);
    var t' := p[i + 2..] + [BANG, HASH] + t;
    assert p == p[..i] + [BANG, HASH] + p[i + 2..];
    assert Frame(p) + t == Frame(p[..i]) + t';
    ReceiveFrame(rd, lost, k, p[..i], t');
    assert p[..i] + [BANG, HASH] == p[..i + 2];
  }

  const KEEP_ALL: nat -> bool := k => false

  /** Framing characterised, where the length is checked: a frame of the expected size, with anything
      after it, is read back if its payload contains no `!#`, and aborts the reader otherwise. */
  lemma FramingIff(rd: Reader, p: seq<byte>, t: seq<byte>, k: nat)
    requires rd.rule == Asserted && |p| == rd.size
    ensures Receive(rd, KEEP_ALL, k, Frame(p) + t) == if HasStop(p) then Aborted else Received(p, t, k + 1)
  {
    if HasStop(p) {
      var i := ReceiveCut(rd, KEEP_ALL, k, p, t);
    } else {
      ReceiveFrame(rd, KEEP_ALL, k, p, t);
    }
  }

  /** The payload is handed over unchanged, with some rest of the stream left. */
  ghost predicate Intact(r: Result, p: seq<byte>) {
    r.Received? && r.payload == p
  }

  /** Where the expected number of bytes is copied unchecked, a payload gets through unchanged exactly
      when no `!#` starts before its last two bytes, because a `!#` right at its end is copied along;
      and the stream is left right behind the frame exactly when it has no `!#` at all. */
  lemma CopyFramingIff(rd: Reader, p: seq<byte>, t: seq<byte>, k: nat)
    requires rd.rule == CopiesSize && |p| == rd.size
    ensures Intact(Receive(rd, KEEP_ALL, k, Frame(p) + t), p) <==> forall i :: StopAt(p, i) ==> i == |p| - 2
    ensures Receive(rd, KEEP_ALL, k, Frame(p) + t) == Received(p, t, k + 1) <==> !HasStop(p)
  {
    var r := Receive(rd, KEEP_ALL, k, Frame(p) + t);
    if HasStop(p) {
      var i := ReceiveCut(rd, KEEP_ALL, k, p, t);
      var rest := p[i + 2..] + [BANG, HASH] + t;
      if i == |p| - 2 {
        assert r == Received(p, rest, k + 1) && |rest| > |t|;
        LastStopOnly(p, i);
      } else {
        assert r == Partial(p[..i + 2], rest, k + 1);
      }
    } else {
      ReceiveFrame(rd, KEEP_ALL, k, p, t);
      assert (p + [BANG, HASH])[..rd.size] == p;
      assert r == Received(p, t, k + 1);
    }
  }

  /** If nothing stops before the last two bytes, only they can. */
  lemma LastStopOnly(p: seq<byte>, i: nat)
    requires StopAt(p, i) && i == |p| - 2 && !HasStop(p[..i])
    ensures forall j :: StopAt(p, j) ==> j == i
  {
    var q := p[..i];
    forall j | StopAt(p, j)
      ensures j == i
    {
      assert StopAt(q, j) <==> j < i - 1;
    }
  }

  /** The lab 2 reader hands over a payload that ends in `!#` unchanged, and leaves two stray bytes. */
  lemma StopAtEnd(p: seq<byte>, t: seq<byte>)
    requires |p| == SEG_BYTES && StopAt(p, |p| - 2) && !HasStop(p[..|p| - 2])
    ensures Receive(LAB2_RECVSEG, KEEP_ALL, 0, Frame(p) + t) == Received(p, [BANG, HASH] + t, 1)
  {
    var i := ReceiveCut(LAB2_RECVSEG, KEEP_ALL, 0, p, t);
    LastStopOnly(p, |p| - 2);
    assert p[i + 2..] + [BANG, HASH] + t == [BANG, HASH] + t;
  }

  /** Packets of any length up to the maximum, read without a length check: handed over intact
      exactly when they contain no `!#`, and otherwise as a strict prefix. */
  lemma PacketFramingIff(rd: Reader, p: seq<byte>, t: seq<byte>, k: nat)
    requires rd.rule == AnyLength && |p| <= rd.size
    ensures Receive(rd, KEEP_ALL, k, Frame(p) + t) == Received(p, t, k + 1) <==> !HasStop(p)
    ensures Receive(rd, KEEP_ALL, k, Frame(p) + t).Received?
    ensures Receive(rd, KEEP_ALL, k, Frame(p) + t).payload <= p
  {
    if HasStop(p) {
      var i := ReceiveCut(rd, KEEP_ALL, k, p, t);
    } else {
      ReceiveFrame(rd, KEEP_ALL, k, p, t);
    }
  }

  /** How many bytes a reader still has to take before it can hand over a payload of a given length. */
  function Missing(phase: Phase, held: int): int {
    match phase
    case Start1 => 4
    case Start2 => 3
    case Recv => 2 - held
    case Stop1 => 2 - held
  }

  /** A reader that does not fall through takes a whole frame for what it hands over. */
  lemma {:induction false} TakesWholeFrame(rd: Reader, lost: nat -> bool, k: nat, phase: Phase,
                                           acc: seq<byte>, s: seq<byte>)
    requires !rd.fallsThrough && rd.rule == Asserted
    requires (phase == Start1 || phase == Start2 ==> acc == []) && (phase == Stop1 ==> acc != [])
    ensures var r := Run(rd, lost, k, phase, acc, s);
            r.Received? ==> |r.payload| + |r.rest| + Missing(phase, |acc|) <= |s|
    decreases |s|
  {
    if s != [] {
      var c, t := s[0], s[1..];
      match phase
      case Start1 => TakesWholeFrame(rd, lost, k, if c == BANG then Start2 else Start1, acc, t);
      case Start2 => TakesWholeFrame(rd, lost, k, if c == AMP then Recv else Start1, acc, t);
      case Recv =>
        if |acc| < rd.size + 2 {
          TakesWholeFrame(rd, lost, k, if c == BANG then Stop1 else Recv, acc + [c], t);
        }
      case Stop1 =>
        if |acc| < rd.size + 2 {
          if c == HASH {
            TakesWholeFrame(rd, lost, k + 1, Start1, [], t);
          } else {
            TakesWholeFrame(rd, lost, k, if c == BANG then Stop1 else Recv, acc + [c], t);
          }
        }
    }
  }

  /** The readers differ on stray bytes between frames. A lone `&` opens a frame exactly for the ones
      that fall through; the others skip it and go on as if it had not been there. */
  lemma LoneAmpersand(rd: Reader, p: seq<byte>, t: seq<byte>, k: nat)
    requires rd.rule == Asserted && |p| == rd.size && !HasStop(p)
    ensures Receive(rd, KEEP_ALL, k, [AMP] + p + [BANG, HASH] + t) == Received(p, t, k + 1) <==> rd.fallsThrough
    ensures !rd.fallsThrough ==>
              Receive(rd, KEEP_ALL, k, [AMP] + p + [BANG, HASH] + t) == Receive(rd, KEEP_ALL, k, p + [BANG, HASH] + t)
  {
    assert ([AMP] + p + [BANG, HASH] + t)[1..] == p + [BANG, HASH] + t;
    RunCollects(rd, KEEP_ALL, k, Recv, [], p, t);
    assert [] + p + [BANG, HASH] == p + [BANG, HASH];
    if !rd.fallsThrough {
      TakesWholeFrame(rd, KEEP_ALL, k, Start1, [], [AMP] + p + [BANG, HASH] + t);
    }
  }

  /** Outside a frame, bytes other than `!` are skipped. */
  lemma {:induction false} SkipsNoise(rd: Reader, lost: nat -> bool, k: nat, noise: seq<byte>, t: seq<byte>)
    requires !rd.fallsThrough && forall i :: 0 <= i < |noise| ==> noise[i] != BANG
    ensures Receive(rd, lost, k, noise + t) == Receive(rd, lost, k, t)
  {
    if noise == [] {
      assert noise + t == t;
    } else {
      assert (noise + t)[1..] == noise[1..] + t;
      SkipsNoise(rd, lost, k, noise[1..], t);
    }
  }

  // ---------------------------------------------------------------- the channel

  function Stream(ps: seq<seq<byte>>): seq<byte> {
    if ps == [] then [] else Frame(ps[0]) + Stream(ps[1..])
  }

  /** Repeated calls until one fails: what they return, and how the last one ended. */
  function ReceiveAll(rd: Reader, lost: nat -> bool, k: nat, s: seq<byte>): (seq<seq<byte>>, Result)
    decreases |s|
  {
    var r := Receive(rd, lost, k, s);
    if r.Received? && |r.rest| < |s| then
      var (ps, last) := ReceiveAll(rd, lost, r.k, r.rest);
      ([r.payload] + ps, last)
    else ([], r)
  }

  /** Of the things sent, those the loss test keeps, in order. */
  function Kept<T>(xs: seq<T>, lost: nat -> bool, k: nat): seq<T> {
    if xs == [] then []
    else if lost(k) then Kept(xs[1..], lost, k + 1)
    else [xs[0]] + Kept(xs[1..], lost, k + 1)
  }

  ghost predicate Sendable(rd: Reader, ps: seq<seq<byte>>) {
    forall p :: p in ps ==> !HasStop(p) && (|p| == rd.size || (rd.rule == AnyLength && |p| < rd.size))
  }

  /** The framed byte stream is a lossy first-in first-out channel: reading it to the end returns
      exactly the frames the loss test keeps, in order and unaltered, and then ends cleanly. */
  lemma {:induction false} ChannelIsLossyFifo(rd: Reader, lost: nat -> bool, k: nat, ps: seq<seq<byte>>)
    requires Sendable(rd, ps)
    ensures ReceiveAll(rd, lost, k, Stream(ps)) == (Kept(ps, lost, k), EndOfInput)
    decreases |ps|
  {
    if ps != [] {
      assert ps[0] in ps && forall p :: p in ps[1..] ==> p in ps;
      ReceiveFrame(rd, lost, k, ps[0], Stream(ps[1..]));
      ChannelIsLossyFifo(rd, lost, k + 1, ps[1..]);
      if lost(k) {
        LostFirst(rd, lost, k, ps[0], Stream(ps[1..]));
      } else {
        KeptFirst(rd, lost, k, ps[0], Stream(ps[1..]));
      }
    }
  }

  lemma KeptFirst(rd: Reader, lost: nat -> bool, k: nat, p: seq<byte>, t: seq<byte>)
    requires Receive(rd, lost, k, Frame(p) + t) == Received(p, t, k + 1)
    ensures var (ps, last) := ReceiveAll(rd, lost, k + 1, t);
            ReceiveAll(rd, lost, k, Frame(p) + t) == ([p] + ps, last)
  {
  }

  lemma LostFirst(rd: Reader, lost: nat -> bool, k: nat, p: seq<byte>, t: seq<byte>)
    requires lost(k) && Receive(rd, lost, k, Frame(p) + t) == Receive(rd, lost, k + 1, t)
    ensures ReceiveAll(rd, lost, k, Frame(p) + t) == ReceiveAll(rd, lost, k + 1, t)
  {
    ReceiveShortens(rd, lost, k + 1, Start1, [], t);
  }

  lemma {:induction false} ReceiveShortens(rd: Reader, lost: nat -> bool, k: nat, phase: Phase,
                                           acc: seq<byte>, s: seq<byte>)
    ensures var r := Run(rd, lost, k, phase, acc, s);
            r.Received? ==> |r.rest| < |s|
    decreases |s|
  {
    if s != [] {
      var c, t := s[0], s[1..];
      match phase
      case Start1 =>
        ReceiveShortens(rd, lost, k, if c == BANG then Start2 else if rd.fallsThrough && c == AMP then Recv else Start1,
                        acc, t);
      case Start2 => ReceiveShortens(rd, lost, k, if c == AMP then Recv else Start1, acc, t);
      case Recv => ReceiveShortens(rd, lost, k, if c == BANG then Stop1 else Recv, acc + [c], t);
      case Stop1 =>
        ReceiveShortens(rd, lost, k + 1, Start1, [], t);
        ReceiveShortens(rd, lost, k, if c == BANG then Stop1 else Recv, acc + [c], t);
    }
  }
}
