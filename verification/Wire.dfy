/** Segments as the bytes exchanged between the transport and network processes: a node ID, the
    segment header in little-endian fields, and a data area of fixed size. */
module Wire {
  import opened Segments
  import opened Framing

  /** A segment together with the node it goes to or comes from. */
  datatype Addressed = Addressed(node: int, seg: Segment)

  const WORD := 0x1_0000_0000

  function Word16(n: int): seq<byte>
    requires 0 <= n < 0x1_0000
  {
    [(n % 256) as byte, (n / 256) as byte]
  }

  function Word32(n: int): seq<byte>
    requires 0 <= n < WORD
  {
    Word16(n % 0x1_0000) + Word16(n / 0x1_0000)
  }

  function Value16(s: seq<byte>): int
    requires |s| == 2
  {
    s[0] as int + 256 * (s[1] as int)
  }

  function Value32(s: seq<byte>): int
    requires |s| == 4
  {
    Value16(s[..2]) + 0x1_0000 * Value16(s[2..])
  }

  lemma WordRoundTrip(n: int)
    requires 0 <= n < WORD
    ensures Value32(Word32(n)) == n
    ensures n < 0x1_0000 ==> Value16(Word16(n)) == n
  {
    assert Word32(n)[..2] == Word16(n % 0x1_0000);
    assert Word32(n)[2..] == Word16(n / 0x1_0000);
  }

  function KindCode(k: Kind): int {
    match k
    case SYN => 0
    case SYNACK => 1
    case FIN => 2
    case FINACK => 3
    case DATA => 4
    case DATAACK => 5
  }

  function KindOf(n: int): Kind {
    match n
    case 0 => SYN
    case 1 => SYNACK
    case 2 => FIN
    case 3 => FINACK
    case 4 => DATA
    case _ => DATAACK
  }

  /** Field values fit their widths, and the data fits the segment. */
  predicate Encodable(a: Addressed) {
    && 0 <= a.node < WORD
    && 0 <= a.seg.srcPort < WORD && 0 <= a.seg.destPort < WORD
    && a.seg.seqNum < WORD && a.seg.ackNum < WORD
    && |a.seg.data| <= MAX_SEG_LEN
  }

  function Zeros(n: nat): seq<byte> {
    seq(n, i => 0)
  }

  function Header(a: Addressed): seq<byte>
    requires Encodable(a)
  {
    Word32(a.node) + Word32(a.seg.srcPort) + Word32(a.seg.destPort) + Word32(a.seg.seqNum) + Word32(a.seg.ackNum)
    + Word16(|a.seg.data|) + Word16(KindCode(a.seg.kind)) + Word16(0) + Word16(0)
  }

  /** The bytes of the structure the two processes exchange. */
  function Encode(a: Addressed): (s: seq<byte>)
    requires Encodable(a)
    ensures |s| == SENDSEG_ARG_BYTES
  {
    Header(a) + a.seg.data + Zeros(MAX_SEG_LEN - |a.seg.data|)
  }

  function Decode(s: seq<byte>): Addressed
    requires |s| == SENDSEG_ARG_BYTES
  {
    var length := Value16(s[20..22]);
    Addressed(Value32(s[0..4]),
              Segment(Value32(s[4..8]), Value32(s[8..12]), Value32(s[12..16]), Value32(s[16..20]),
                      KindOf(Value16(s[22..24])),
                      if length <= MAX_SEG_LEN then s[28..28 + length] else s[28..]))
  }

  lemma HeaderFields(a: Addressed)
    requires Encodable(a)
    ensures |Header(a)| == 28
    ensures Header(a)[0..4] == Word32(a.node)
    ensures Header(a)[4..8] == Word32(a.seg.srcPort)
    ensures Header(a)[8..12] == Word32(a.seg.destPort)
    ensures Header(a)[12..16] == Word32(a.seg.seqNum)
    ensures Header(a)[16..20] == Word32(a.seg.ackNum)
    ensures Header(a)[20..22] == Word16(|a.seg.data|)
    ensures Header(a)[22..24] == Word16(KindCode(a.seg.kind))
  {
  }

  /** Where everything is: the two type bytes hold the numbers of the segment types, low byte first, the
      length its two bytes, and the data starts at byte 28 and is padded with zeros. */
  lemma Layout(a: Addressed)
    requires Encodable(a)
    ensures var s := Encode(a);
            && s[22] as int == match a.seg.kind {
                 case SYN => 0 case SYNACK => 1 case FIN => 2 case FINACK => 3 case DATA => 4 case DATAACK => 5 }
            && s[23] == 0
            && s[20] as int + 256 * (s[21] as int) == |a.seg.data|
            && s[28..28 + |a.seg.data|] == a.seg.data
            && forall i :: 28 + |a.seg.data| <= i < |s| ==> s[i] == 0
  {
    HeaderFields(a);
    var s, h := Encode(a), Header(a);
    assert s[20..22] == h[20..22] && s[22..24] == h[22..24];
    assert s[22] == s[22..24][0] && s[23] == s[22..24][1];
    assert s[20] == s[20..22][0] && s[21] == s[20..22][1];
  }

  /** The number fields, low byte first: node, ports, sequence and acknowledgement number. */
  lemma NumberLayout(a: Addressed, i: nat)
    requires Encodable(a) && i < 5
    ensures var s := Encode(a);
            s[4 * i] as int + 0x100 * (s[4 * i + 1] as int)
            + 0x1_0000 * (s[4 * i + 2] as int) + 0x100_0000 * (s[4 * i + 3] as int) ==
              [a.node, a.seg.srcPort, a.seg.destPort, a.seg.seqNum, a.seg.ackNum][i]
  {
    HeaderFields(a);
    var s, n := Encode(a), [a.node, a.seg.srcPort, a.seg.destPort, a.seg.seqNum, a.seg.ackNum][i];
    assert s[4 * i..4 * i + 4] == Header(a)[4 * i..4 * i + 4] == Word32(n);
    var q := s[4 * i..4 * i + 4];
    assert q[0] == s[4 * i] && q[1] == s[4 * i + 1] && q[2] == s[4 * i + 2] && q[3] == s[4 * i + 3];
    WordBytes(n);
    BytePairs(n);
  }

  /** Encoding loses nothing. */
  lemma EncodeRoundTrip(a: Addressed)
    requires Encodable(a)
    ensures Decode(Encode(a)) == a
  {
    HeaderFields(a);
    var s, h := Encode(a), Header(a);
    assert forall i, j :: 0 <= i <= j <= 28 ==> s[i..j] == h[i..j];
    WordRoundTrip(a.node);
    WordRoundTrip(a.seg.srcPort);
    WordRoundTrip(a.seg.destPort);
    WordRoundTrip(a.seg.seqNum);
    WordRoundTrip(a.seg.ackNum);
    WordRoundTrip(|a.seg.data|);
    WordRoundTrip(KindCode(a.seg.kind));
    assert s[28..28 + |a.seg.data|] == a.seg.data;
  }

  function EncodeAll(xs: seq<Addressed>): (ps: seq<seq<byte>>)
    requires forall a :: a in xs ==> Encodable(a)
    ensures |ps| == |xs|
  {
    if xs == [] then [] else [Encode(xs[0])] + EncodeAll(xs[1..])
  }

  function DecodeAll(ps: seq<seq<byte>>): seq<Addressed>
    requires forall p :: p in ps ==> |p| == SENDSEG_ARG_BYTES
  {
    if ps == [] then [] else [Decode(ps[0])] + DecodeAll(ps[1..])
  }

  ghost predicate Clean(xs: seq<Addressed>) {
    forall a :: a in xs ==> Encodable(a) && !HasStop(Encode(a))
  }

  lemma {:induction false} EncodeAllSendable(xs: seq<Addressed>)
    requires Clean(xs)
    ensures forall a :: a in xs ==> Encodable(a)
    ensures Sendable(MNP_RECVSEG, EncodeAll(xs))
  {
    if xs != [] {
      assert xs[0] in xs && forall a :: a in xs[1..] ==> a in xs;
      EncodeAllSendable(xs[1..]);
    }
  }

  lemma {:induction false} KeptDecodes(xs: seq<Addressed>, lost: nat -> bool, k: nat)
    requires forall a :: a in xs ==> Encodable(a)
    ensures forall p :: p in Kept(EncodeAll(xs), lost, k) ==> |p| == SENDSEG_ARG_BYTES
    ensures DecodeAll(Kept(EncodeAll(xs), lost, k)) == Kept(xs, lost, k)
  {
    if xs != [] {
      assert xs[0] in xs && forall a :: a in xs[1..] ==> a in xs;
      assert EncodeAll(xs)[1..] == EncodeAll(xs[1..]);
      KeptDecodes(xs[1..], lost, k + 1);
      EncodeRoundTrip(xs[0]);
      if !lost(k) {
        var rest := Kept(EncodeAll(xs[1..]), lost, k + 1);
        assert Kept(EncodeAll(xs), lost, k) == [Encode(xs[0])] + rest;
        assert ([Encode(xs[0])] + rest)[1..] == rest;
      }
    }
  }

  /** Reading the frames of `xs` to the end gives those the loss test keeps, in order, and ends cleanly. */
  ghost predicate Arrives(xs: seq<Addressed>, lost: nat -> bool, k: nat)
    requires forall a :: a in xs ==> Encodable(a)
  {
    var (ps, last) := ReceiveAll(MNP_RECVSEG, lost, k, Stream(EncodeAll(xs)));
    && last == EndOfInput
    && (forall p :: p in ps ==> |p| == SENDSEG_ARG_BYTES)
    && DecodeAll(ps) == Kept(xs, lost, k)
  }

  /** End to end, what one process sends with `mnp_sendseg` framing, as long as no `!#` is in it, the
      other receives as exactly the subsequence the loss test keeps, every field included. */
  lemma SegmentChannelIsLossyFifo(xs: seq<Addressed>, lost: nat -> bool, k: nat)
    requires Clean(xs)
    ensures forall a :: a in xs ==> Encodable(a)
    ensures Arrives(xs, lost, k)
  {
    EncodeAllSendable(xs);
    ChannelIsLossyFifo(MNP_RECVSEG, lost, k, EncodeAll(xs));
    KeptDecodes(xs, lost, k);
  }

  // ---------------------------------------------------------------- which segments get through

  /** The last byte of `u` and the first of `v` are `!#`. */
  predicate StopAcross(u: seq<byte>, v: seq<byte>) {
    u != [] && v != [] && u[|u| - 1] == BANG && v[0] == HASH
  }

  lemma StopInConcat(u: seq<byte>, v: seq<byte>)
    ensures HasStop(u + v) <==> HasStop(u) || HasStop(v) || StopAcross(u, v)
  {
    var w := u + v;
    if HasStop(w) {
      var i :| StopAt(w, i);
      if i < |u| - 1 {
        assert StopAt(u, i);
      } else if |u| <= i {
        assert StopAt(v, i - |u|);
      }
    }
    if HasStop(u) {
      var i :| StopAt(u, i);
      assert StopAt(w, i);
    }
    if HasStop(v) {
      var i :| StopAt(v, i);
      assert StopAt(w, |u| + i);
    }
    if StopAcross(u, v) {
      assert StopAt(w, |u| - 1);
    }
  }

  /** `!#` as a little-endian number. */
  const STOP16 := 0x2321

  /** Two neighbouring bytes of a 32-bit field are `!#`. */
  predicate StopIn32(n: int) {
    n % 0x1_0000 == STOP16 || n / 0x100 % 0x1_0000 == STOP16 || n / 0x1_0000 == STOP16
  }

  /** The last byte of a 32-bit field and the first of the next field are. */
  predicate StopBetween(n: int, m: int) {
    n / 0x100_0000 == 33 && m % 256 == 35
  }

  /** Some two neighbouring bytes of the header are. */
  predicate StopInHeader(a: Addressed) {
    || StopIn32(a.node) || StopIn32(a.seg.srcPort) || StopIn32(a.seg.destPort)
    || StopIn32(a.seg.seqNum) || StopIn32(a.seg.ackNum)
    || StopBetween(a.node, a.seg.srcPort) || StopBetween(a.seg.srcPort, a.seg.destPort)
    || StopBetween(a.seg.destPort, a.seg.seqNum) || StopBetween(a.seg.seqNum, a.seg.ackNum)
    || StopBetween(a.seg.ackNum, |a.seg.data|)
  }

  /** The bytes of a 32-bit field. */
  lemma WordBytes(n: int)
    requires 0 <= n < WORD
    ensures |Word32(n)| == 4
    ensures Word32(n)[0] as int == n % 256 && Word32(n)[1] as int == n / 0x100 % 256
    ensures Word32(n)[2] as int == n / 0x1_0000 % 256 && Word32(n)[3] as int == n / 0x100_0000
  {
  }

  /** Two neighbouring bytes of a number are a number of their own. */
  lemma BytePairs(n: int)
    requires 0 <= n < WORD
    ensures n % 0x1_0000 == n % 256 + 256 * (n / 0x100 % 256)
    ensures n / 0x100 % 0x1_0000 == n / 0x100 % 256 + 256 * (n / 0x1_0000 % 256)
    ensures n / 0x1_0000 == n / 0x1_0000 % 256 + 256 * (n / 0x100_0000)
  {
  }

  lemma StopInWord(n: int)
    requires 0 <= n < WORD
    ensures HasStop(Word32(n)) <==> StopIn32(n)
  {
    WordBytes(n);
    BytePairs(n);
    var w := Word32(n);
    assert StopAt(w, 0) <==> n % 0x1_0000 == STOP16;
    assert StopAt(w, 1) <==> n / 0x100 % 0x1_0000 == STOP16;
    assert StopAt(w, 2) <==> n / 0x1_0000 == STOP16;
  }

  /** A field in front of more bytes. */
  lemma StopInField(n: int, rest: seq<byte>)
    requires 0 <= n < WORD && rest != []
    ensures HasStop(Word32(n) + rest) <==>
              StopIn32(n) || HasStop(rest) || (n / 0x100_0000 == 33 && rest[0] == HASH)
  {
    StopInConcat(Word32(n), rest);
    StopInWord(n);
    WordBytes(n);
  }

  /** The last four fields: a length of at most 1464, a type below 6 and two zeros. */
  function Tail(a: Addressed): (r: seq<byte>)
    requires Encodable(a)
    ensures |r| == 8 && r[0] as int == |a.seg.data| % 256
  {
    Word16(|a.seg.data|) + Word16(KindCode(a.seg.kind)) + Word16(0) + Word16(0)
  }

  lemma NoStopInTail(a: Addressed)
    requires Encodable(a)
    ensures !HasStop(Tail(a)) && Tail(a)[7] == 0
  {
    var r := Tail(a);
    assert r[1] as int == |a.seg.data| / 256 && r[2] as int == KindCode(a.seg.kind);
    assert r[3] == 0 && r[4] == 0 && r[5] == 0 && r[6] == 0 && r[7] == 0;
    assert !StopAt(r, 0) && !StopAt(r, 1) && !StopAt(r, 2) && !StopAt(r, 3);
  }

  lemma HeaderStop(a: Addressed)
    requires Encodable(a)
    ensures HasStop(Header(a)) <==> StopInHeader(a)
    ensures |Header(a)| == 28 && Header(a)[27] == 0
  {
    NoStopInTail(a);
    var t0 := Tail(a);
    var t1 := Word32(a.seg.ackNum) + t0;
    var t2 := Word32(a.seg.seqNum) + t1;
    var t3 := Word32(a.seg.destPort) + t2;
    var t4 := Word32(a.seg.srcPort) + t3;
    assert Header(a) == Word32(a.node) + t4;
    WordBytes(a.seg.ackNum);
    WordBytes(a.seg.seqNum);
    WordBytes(a.seg.destPort);
    WordBytes(a.seg.srcPort);
    StopInField(a.seg.ackNum, t0);
    StopInField(a.seg.seqNum, t1);
    StopInField(a.seg.destPort, t2);
    StopInField(a.seg.srcPort, t3);
    StopInField(a.node, t4);
  }

  lemma NoStopInZeros(n: nat)
    ensures !HasStop(Zeros(n))
  {
    var z := Zeros(n);
    forall i | 0 <= i < n - 1
      ensures !StopAt(z, i)
    {
      assert z[i] == 0;
    }
  }

  /** The bytes of a segment contain `!#` exactly when its header numbers or its data do. */
  lemma StopIff(a: Addressed)
    requires Encodable(a)
    ensures HasStop(Encode(a)) <==> StopInHeader(a) || HasStop(a.seg.data)
  {
    var h, z := Header(a), Zeros(MAX_SEG_LEN - |a.seg.data|);
    HeaderStop(a);
    NoStopInZeros(MAX_SEG_LEN - |a.seg.data|);
    StopInConcat(h + a.seg.data, z);
    StopInConcat(h, a.seg.data);
  }

  /** The two readers of segments, one in each process. */
  predicate ReadsSegments(rd: Reader) {
    rd == MNP_RECVSEG || rd == GETSEG_TO_SEND
  }

  /** The fate of every segment, whatever follows it: delivered unaltered, or, exactly when `!#` is in
      its header numbers or its data, the end of the receiving process. */
  lemma AbortsIff(rd: Reader, a: Addressed, t: seq<byte>, k: nat)
    requires ReadsSegments(rd) && Encodable(a)
    ensures Receive(rd, KEEP_ALL, k, Frame(Encode(a)) + t) ==
              if StopInHeader(a) || HasStop(a.seg.data) then Aborted else Received(Encode(a), t, k + 1)
  {
    StopIff(a);
    FramingIff(rd, Encode(a), t, k);
  }

  /** A message that the send call does queue, and that aborts the receiver. */
  lemma DataCanAbort(rd: Reader, node: int, port: int, t: seq<byte>)
    requires ReadsSegments(rd) && 0 <= node < WORD && 0 <= port < WORD
    ensures var data := [BANG, HASH] + Zeros(MAX_SEG_LEN - 2);
            var a := Addressed(node, Segment(port, port, 0, 0, DATA, data));
            && FullPieces(data) == [data] && Encodable(a)
            && Receive(rd, KEEP_ALL, 0, Frame(Encode(a)) + t) == Aborted
  {
    var data := [BANG, HASH] + Zeros(MAX_SEG_LEN - 2);
    assert StopAt(data, 0);
    assert data[..MAX_SEG_LEN] == data;
    AbortsIff(rd, Addressed(node, Segment(port, port, 0, 0, DATA, data)), t, 0);
  }

  /** How many full segments it takes until the sequence number itself contains `!#`. */
  const SEGMENTS_TO_ABORT := 47412

  /** Whatever the data, a client that gets that far aborts the process that reads its next segment: the
      sequence number is 0x4232160. */
  lemma SequenceCanAbort(rd: Reader, all: seq<seq<byte>>, node: int, srcPort: int, destPort: int, t: seq<byte>)
    requires ReadsSegments(rd) && 0 <= node < WORD && 0 <= srcPort < WORD && 0 <= destPort < WORD
    requires |all| == SEGMENTS_TO_ABORT + 1 && forall i :: 0 <= i < |all| ==> |all[i]| == MAX_SEG_LEN
    ensures var a := Addressed(node, ToSegment(ChunkAt(all, SEGMENTS_TO_ABORT), srcPort, destPort));
            Encodable(a) && Receive(rd, KEEP_ALL, 0, Frame(Encode(a)) + t) == Aborted
  {
    FullOffset(all, SEGMENTS_TO_ABORT);
    AbortsIff(rd, Addressed(node, ToSegment(ChunkAt(all, SEGMENTS_TO_ABORT), srcPort, destPort)), t, 0);
  }

  lemma {:induction false} FullOffset(all: seq<seq<byte>>, i: nat)
    requires i <= |all| && forall j :: 0 <= j < |all| ==> |all[j]| == MAX_SEG_LEN
    ensures Offset(all, i) == i * MAX_SEG_LEN
  {
    if i > 0 {
      FullOffset(all, i - 1);
      OffsetStep(all, i - 1);
    }
  }
}
