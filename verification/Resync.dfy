/** What a reader makes of bytes that are no frame, and where the next frame begins for it. */
module Resync {
  import opened Segments
  import opened Framing

  /** Bytes, in front of a frame, that open none: outside pairs that begin with `!` anything goes, but for a
      reader that falls through no `&`; the second byte of such a pair is anything but `&`; and only a
      reader that falls through may be left with half a pair. */
  predicate Quiet(fallsThrough: bool, u: seq<byte>) {
    if u == [] then true
    else if u[0] == BANG then
      if |u| == 1 then fallsThrough else u[1] != AMP && Quiet(fallsThrough, u[2..])
    else !(fallsThrough && u[0] == AMP) && Quiet(fallsThrough, u[1..])
  }

  /** A `!` and a byte that is not `&` are skipped by every reader. */
  lemma SkipsPair(rd: Reader, lost: nat -> bool, k: nat, c: byte, t: seq<byte>)
    requires c != AMP
    ensures Receive(rd, lost, k, [BANG, c] + t) == Receive(rd, lost, k, t)
  {
    assert ([BANG, c] + t)[1..] == [c] + t && ([c] + t)[1..] == t;
    assert Receive(rd, lost, k, [BANG, c] + t) == Run(rd, lost, k, Start2, [], [c] + t);
  }

  lemma SkipsByte(rd: Reader, lost: nat -> bool, k: nat, c: byte, t: seq<byte>)
    requires c != BANG && !(rd.fallsThrough && c == AMP)
    ensures Receive(rd, lost, k, [c] + t) == Receive(rd, lost, k, t)
  {
    assert ([c] + t)[1..] == t;
  }

  /** A frame after half a pair, for a reader that falls through. */
  lemma FrameAfterBang(rd: Reader, lost: nat -> bool, k: nat, q: seq<byte>, t: seq<byte>)
    requires rd.fallsThrough && !HasStop(q) && |q| <= rd.size
    ensures Receive(rd, lost, k, [BANG] + (Frame(q) + t)) == Complete(rd, lost, k, q + [BANG, HASH], t)
  {
    var s := [AMP] + (q + [BANG, HASH] + t);
    assert [BANG] + (Frame(q) + t) == [BANG, BANG] + s;
    SkipsPair(rd, lost, k, BANG, s);
    assert s[1..] == q + [BANG, HASH] + t;
    RunCollects(rd, lost, k, Recv, [], q, t);
    assert [] + q + [BANG, HASH] == q + [BANG, HASH];
  }

  /** Resynchronisation: after quiet bytes a frame is read as if they had not been there. */
  lemma {:induction false} FrameAfterNoise(rd: Reader, lost: nat -> bool, k: nat, u: seq<byte>,
                                           q: seq<byte>, t: seq<byte>)
    requires Quiet(rd.fallsThrough, u) && !HasStop(q) && |q| <= rd.size
    ensures Receive(rd, lost, k, u + (Frame(q) + t)) == Complete(rd, lost, k, q + [BANG, HASH], t)
    decreases |u|
  {
    var s := Frame(q) + t;
    if u == [] {
      assert u + s == s;
      ReceiveFrame(rd, lost, k, q, t);
    } else if u[0] != BANG {
      assert u + s == [u[0]] + (u[1..] + s);
      SkipsByte(rd, lost, k, u[0], u[1..] + s);
      FrameAfterNoise(rd, lost, k, u[1..], q, t);
    } else if |u| == 1 {
      assert u == [BANG];
      FrameAfterBang(rd, lost, k, q, t);
    } else {
      assert u + s == [BANG, u[1]] + (u[2..] + s);
      SkipsPair(rd, lost, k, u[1], u[2..] + s);
      FrameAfterNoise(rd, lost, k, u[2..], q, t);
    }
  }

  // ---------------------------------------------------------------- nothing is handed over that was not framed

  /** What opens a frame. */
  function Opening(rd: Reader): seq<byte> {
    if rd.fallsThrough then [AMP] else [BANG, AMP]
  }

  /** The bytes of a frame behind its opening: no `!#` but at the very end. */
  ghost predicate FirstStopAtEnd(held: seq<byte>) {
    |held| >= 2 && held[|held| - 2..] == [BANG, HASH] && !HasStop(held[..|held| - 1])
  }

  /** What a reader makes of them. */
  ghost predicate HandsOver(rd: Reader, held: seq<byte>, payload: seq<byte>)
    requires |held| >= 2
  {
    && |held| <= rd.size + 2
    && match rd.rule
       case Asserted => payload == held[..|held| - 2] && |payload| == rd.size
       case AnyLength => payload == held[..|held| - 2]
       case CopiesSize => rd.size <= |held| && payload == held[..rd.size]
  }

  lemma StopFreeSnoc(acc: seq<byte>, c: byte)
    requires !HasStop(acc) && (acc != [] && acc[|acc| - 1] == BANG ==> c != HASH)
    ensures !HasStop(acc + [c])
  {
    var r := acc + [c];
    forall i | 0 <= i < |r| - 1
      ensures !StopAt(r, i)
    {
      assert !StopAt(acc, i);
    }
  }

  /** The byte that ends a frame. */
  lemma FrameEnds(rd: Reader, k: nat, acc: seq<byte>, t: seq<byte>)
    requires !HasStop(acc) && acc != [] && acc[|acc| - 1] == BANG && |acc| < rd.size + 2
    requires Complete(rd, KEEP_ALL, k, acc + [HASH], t).Received?
    ensures FirstStopAtEnd(acc + [HASH])
    ensures var r := Complete(rd, KEEP_ALL, k, acc + [HASH], t);
            r.rest == t && HandsOver(rd, acc + [HASH], r.payload)
  {
    var held := acc + [HASH];
    assert held[..|held| - 1] == acc && held[|held| - 2..] == [BANG, HASH];
  }

  /** From the opening on, a reader takes everything up to the first `!#`. */
  lemma {:induction false} TakesToFirstStop(rd: Reader, k: nat, phase: Phase, acc: seq<byte>, s: seq<byte>)
    returns (held: seq<byte>)
    requires phase == Recv || phase == Stop1
    requires !HasStop(acc) && (phase == Stop1 <==> acc != [] && acc[|acc| - 1] == BANG)
    requires Run(rd, KEEP_ALL, k, phase, acc, s).Received?
    ensures var r := Run(rd, KEEP_ALL, k, phase, acc, s);
            acc + s == held + r.rest && FirstStopAtEnd(held) && HandsOver(rd, held, r.payload)
    decreases |s|
  {
    var c, t := s[0], s[1..];
    assert s == [c] + t;
    if phase == Stop1 && c == HASH {
      held := acc + [HASH];
      assert Run(rd, KEEP_ALL, k, phase, acc, s) == Complete(rd, KEEP_ALL, k, held, t);
      FrameEnds(rd, k, acc, t);
    } else {
      var next := if c == BANG then Stop1 else Recv;
      assert Run(rd, KEEP_ALL, k, phase, acc, s) == Run(rd, KEEP_ALL, k, next, acc + [c], t);
      StopFreeSnoc(acc, c);
      held := TakesToFirstStop(rd, k, next, acc + [c], t);
      assert acc + [c] + t == acc + s;
    }
  }

  /** `s` is quiet bytes, an opening, the bytes up to the first `!#` after it, and the rest. */
  ghost predicate Framed(rd: Reader, s: seq<byte>, v: seq<byte>, held: seq<byte>, rest: seq<byte>) {
    s == v + Opening(rd) + held + rest && Quiet(rd.fallsThrough, v) && FirstStopAtEnd(held)
  }

  lemma FramedAfterByte(rd: Reader, c: byte, s: seq<byte>, v: seq<byte>, held: seq<byte>, rest: seq<byte>)
    requires Framed(rd, s, v, held, rest) && c != BANG && !(rd.fallsThrough && c == AMP)
    ensures Framed(rd, [c] + s, [c] + v, held, rest)
  {
    assert ([c] + v)[1..] == v;
    assert [c] + s == [c] + v + Opening(rd) + held + rest;
  }

  lemma FramedAfterPair(rd: Reader, c: byte, s: seq<byte>, v: seq<byte>, held: seq<byte>, rest: seq<byte>)
    requires Framed(rd, s, v, held, rest) && c != AMP
    ensures Framed(rd, [BANG, c] + s, [BANG, c] + v, held, rest)
  {
    assert ([BANG, c] + v)[2..] == v;
    assert [BANG, c] + s == [BANG, c] + v + Opening(rd) + held + rest;
  }

  /** An opening at the very front. */
  lemma FramedAtOnce(rd: Reader, t: seq<byte>, held: seq<byte>, rest: seq<byte>)
    requires t == held + rest && FirstStopAtEnd(held)
    ensures Framed(rd, [BANG, AMP] + t, if rd.fallsThrough then [BANG] else [], held, rest)
    ensures rd.fallsThrough ==> Framed(rd, [AMP] + t, [], held, rest)
  {
    if rd.fallsThrough {
      assert [BANG] + Opening(rd) == [BANG, AMP] && [] + Opening(rd) == [AMP];
    } else {
      assert [] + Opening(rd) == [BANG, AMP];
    }
  }

  /** Soundness of every reader: what it hands over stood in the stream between an opening and the first
      `!#` after it, and in front of the opening there were only quiet bytes. */
  lemma {:induction false} HandedOverWasFramed(rd: Reader, k: nat, s: seq<byte>)
    returns (v: seq<byte>, held: seq<byte>)
    requires Receive(rd, KEEP_ALL, k, s).Received?
    ensures var r := Receive(rd, KEEP_ALL, k, s);
            Framed(rd, s, v, held, r.rest) && HandsOver(rd, held, r.payload)
    decreases |s|
  {
    var c, t := s[0], s[1..];
    assert s == [c] + t;
    if c == BANG {
      assert Receive(rd, KEEP_ALL, k, s) == Run(rd, KEEP_ALL, k, Start2, [], t);
      var d, t' := t[0], t[1..];
      assert s == [BANG, d] + t';
      if d == AMP {
        held := TakesToFirstStop(rd, k, Recv, [], t');
        v := if rd.fallsThrough then [BANG] else [];
        assert [] + t' == t';
        FramedAtOnce(rd, t', held, Receive(rd, KEEP_ALL, k, s).rest);
      } else {
        v, held := HandedOverWasFramed(rd, k, t');
        FramedAfterPair(rd, d, t', v, held, Receive(rd, KEEP_ALL, k, s).rest);
        v := [BANG, d] + v;
      }
    } else if rd.fallsThrough && c == AMP {
      held := TakesToFirstStop(rd, k, Recv, [], t);
      v := [];
      assert [] + t == t;
      FramedAtOnce(rd, t, held, Receive(rd, KEEP_ALL, k, s).rest);
    } else {
      v, held := HandedOverWasFramed(rd, k, t);
      FramedAfterByte(rd, c, t, v, held, Receive(rd, KEEP_ALL, k, s).rest);
      v := [c] + v;
    }
  }

  // ---------------------------------------------------------------- exactly when a frame survives what is before it

  lemma {:induction false} QuietBeforeBang(u: seq<byte>)
    requires Quiet(true, u + [BANG])
    ensures Quiet(true, u)
    decreases |u|
  {
    if u != [] {
      if u[0] == BANG {
        if |u| > 1 {
          assert (u + [BANG])[2..] == u[2..] + [BANG];
          QuietBeforeBang(u[2..]);
        }
      } else {
        assert (u + [BANG])[1..] == u[1..] + [BANG];
        QuietBeforeBang(u[1..]);
      }
    }
  }

  /** If `q` is handed over with `t` left, its frame, and nothing else, was what was taken. */
  lemma HeldIsFrame(rd: Reader, v: seq<byte>, held: seq<byte>, u: seq<byte>, q: seq<byte>, t: seq<byte>)
    requires rd.rule != AnyLength && |q| == rd.size && 2 <= rd.size && !HasStop(q)
    requires Framed(rd, u + (Frame(q) + t), v, held, t) && HandsOver(rd, held, q)
    ensures held == q + [BANG, HASH] && v + Opening(rd) == u + [BANG, AMP]
  {
    var w := u + [BANG, AMP] + q + [BANG, HASH];
    assert u + (Frame(q) + t) == w + t;
    assert v + Opening(rd) + held == (v + Opening(rd) + held + t)[..|w|] == w;
    HeldLength(rd, v + Opening(rd), held, u + [BANG, AMP], q);
    assert held == w[|w| - |held|..];
    assert v + Opening(rd) == w[..|w| - |held|];
  }

  lemma HeldLength(rd: Reader, a: seq<byte>, held: seq<byte>, b: seq<byte>, q: seq<byte>)
    requires rd.rule != AnyLength && |q| == rd.size && 2 <= rd.size && !HasStop(q)
    requires a + held == b + q + [BANG, HASH] && FirstStopAtEnd(held) && HandsOver(rd, held, q)
    requires a != [] && a[|a| - 1] == AMP
    ensures |held| == |q| + 2
  {
    if |held| == |q| {
      assert StopAt(q, |q| - 2);
    } else if |held| == |q| + 1 {
      assert held == (b + q + [BANG, HASH])[|a|..];
      assert forall i :: 0 <= i < |q| - 1 ==> held[i] == q[i + 1];
      assert a[|a| - 1] == q[0];
      AllSame(q, held);
    }
  }

  lemma {:induction false} AllSame(q: seq<byte>, held: seq<byte>)
    requires 2 <= |q| && |held| == |q| + 1 && held[..|q|] == q && held[|q| - 1] == BANG
    requires forall i :: 0 <= i < |q| - 1 ==> held[i] == q[i + 1]
    ensures q[0] == BANG
  {
    AllBang(q, held, 0);
  }

  lemma {:induction false} AllBang(q: seq<byte>, held: seq<byte>, i: nat)
    requires 2 <= |q| && |held| == |q| + 1 && held[..|q|] == q && held[|q| - 1] == BANG && i < |q|
    requires forall i :: 0 <= i < |q| - 1 ==> held[i] == q[i + 1]
    ensures q[i] == BANG
    decreases |q| - i
  {
    if i < |q| - 1 {
      AllBang(q, held, i + 1);
      assert held[..|q|][i] == q[i];
    } else {
      assert held[..|q|][i] == q[i];
    }
  }

  /** A frame is received, and the stream left right behind it, exactly when what stands before it is quiet. */
  lemma FrameSurvivesIff(rd: Reader, k: nat, u: seq<byte>, q: seq<byte>, t: seq<byte>)
    requires rd.rule != AnyLength && |q| == rd.size && 2 <= rd.size && !HasStop(q)
    ensures Receive(rd, KEEP_ALL, k, u + (Frame(q) + t)) == Received(q, t, k + 1) <==> Quiet(rd.fallsThrough, u)
  {
    if Quiet(rd.fallsThrough, u) {
      FrameAfterNoise(rd, KEEP_ALL, k, u, q, t);
      assert (q + [BANG, HASH])[..rd.size] == q;
    }
    if Receive(rd, KEEP_ALL, k, u + (Frame(q) + t)) == Received(q, t, k + 1) {
      var v, held := HandedOverWasFramed(rd, k, u + (Frame(q) + t));
      HeldIsFrame(rd, v, held, u, q, t);
      if rd.fallsThrough {
        assert v == (v + Opening(rd))[..|v|] == u + [BANG];
        QuietBeforeBang(u);
      } else {
        assert v == (v + Opening(rd))[..|v|] == u;
      }
    }
  }

  /** What a payload cut off at its first `!#` leaves behind it lets the next frame through exactly when it is
      quiet. */
  lemma FrameAfterCut(p: seq<byte>, q: seq<byte>, t: seq<byte>, k: nat) returns (i: nat)
    requires |p| == |q| == SEG_BYTES && HasStop(p) && !HasStop(q)
    ensures StopAt(p, i) && !HasStop(p[..i])
    ensures var r := Receive(LAB2_RECVSEG, KEEP_ALL, k, Frame(p) + (Frame(q) + t));
            && (r.Received? || r.Partial?)
            && (Receive(LAB2_RECVSEG, KEEP_ALL, k + 1, r.rest) == Received(q, t, k + 2) <==>
                Quiet(false, p[i + 2..] + [BANG, HASH]))
  {
    i := ReceiveCut(LAB2_RECVSEG, KEEP_ALL, k, p, Frame(q) + t);
    FrameSurvivesIff(LAB2_RECVSEG, k + 1, p[i + 2..] + [BANG, HASH], q, t);
  }

  /** In particular the frame behind a payload that ends in `!#` is received. */
  lemma FrameAfterStopAtEnd(p: seq<byte>, q: seq<byte>, t: seq<byte>)
    requires |p| == |q| == SEG_BYTES && StopAt(p, |p| - 2) && !HasStop(p[..|p| - 2]) && !HasStop(q)
    ensures var r := Receive(LAB2_RECVSEG, KEEP_ALL, 0, Frame(p) + (Frame(q) + t));
            && r == Received(p, [BANG, HASH] + (Frame(q) + t), 1)
            && Receive(LAB2_RECVSEG, KEEP_ALL, 1, r.rest) == Received(q, t, 2)
  {
    StopAtEnd(p, Frame(q) + t);
    assert [BANG, HASH][2..] == [];
    FrameSurvivesIff(LAB2_RECVSEG, 1, [BANG, HASH], q, t);
  }

  // ---------------------------------------------------------------- the six readers

  /** On the wire a frame begins with the characters `!&` and ends with `!#`. */
  lemma FrameCharacters(p: seq<byte>)
    ensures var f := Frame(p);
            && f[0] as int == '!' as int && f[1] as int == '&' as int
            && f[|f| - 2] as int == '!' as int && f[|f| - 1] as int == '#' as int
            && f[2..|f| - 2] == p
  {
  }

  /** A lone `&` in front of a payload of the expected size opens a frame for the receive function of the
      transport process, and for no other that checks the length. */
  lemma LoneAmpersandReaders(rd: Reader, p: seq<byte>, t: seq<byte>, k: nat)
    requires rd in {MNP_RECVSEG, GETSEG_TO_SEND, OVERLAY_RECVPKT, GETPKT_TO_SEND}
    requires |p| == rd.size && !HasStop(p)
    ensures Receive(rd, KEEP_ALL, k, [AMP] + p + [BANG, HASH] + t) == Received(p, t, k + 1) <==> rd == MNP_RECVSEG
  {
    LoneAmpersand(rd, p, t, k);
  }

  /** A frame that is too short aborts the readers that check the length, is handed over by the one between
      overlay nodes, and leaves the lab 2 reader with bytes that were never received. */
  lemma ShortFrames(rd: Reader, p: seq<byte>, t: seq<byte>, k: nat)
    requires rd in {MNP_RECVSEG, GETSEG_TO_SEND, OVERLAY_RECVPKT, GETPKT_TO_SEND, RECVPKT, LAB2_RECVSEG}
    requires |p| + 2 < rd.size && !HasStop(p)
    ensures Receive(rd, KEEP_ALL, k, Frame(p) + t) ==
              if rd == RECVPKT then Received(p, t, k + 1)
              else if rd == LAB2_RECVSEG then Partial(p + [BANG, HASH], t, k + 1)
              else Aborted
  {
    ReceiveFrame(rd, KEEP_ALL, k, p, t);
    assert (p + [BANG, HASH])[..|p|] == p;
  }
}
