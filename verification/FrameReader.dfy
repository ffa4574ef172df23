/** The byte-by-byte receive loop. */
module FrameReader {
  import opened Segments
  import opened Framing

  /** Reads `input` one byte at a time into a buffer of `rd.size + 2` bytes until a frame is complete
      and kept, the process aborts, or the input ends. */
  method ReceiveFrame(rd: Reader, lost: nat -> bool, first: nat, input: seq<byte>) returns (r: Result)
    ensures r == Receive(rd, lost, first, input)
  {
    var buf := new byte[rd.size + 2];
    var index, pos, k, phase := 0, 0, first, Start1;
    while pos < |input|
      invariant 0 <= index <= rd.size + 2 && pos <= |input|
      invariant phase == Start1 || phase == Start2 ==> index == 0
      invariant phase == Stop1 ==> 0 < index
      invariant Run(rd, lost, k, phase, buf[..index], input[pos..]) == Receive(rd, lost, first, input)
    {
      var c := input[pos];
      pos := pos + 1;
      match phase {
        case Start1 =>
          if c == BANG {
            phase := Start2;
          } else if rd.fallsThrough && c == AMP {
            phase := Recv;
          }
        case Start2 =>
          phase := if c == AMP then Recv else Start1;
        case Recv =>
          if index >= rd.size + 2 {
            return Overrun;
          }
          ghost var acc := buf[..index];
          buf[index] := c;
          index := index + 1;
          assert buf[..index] == acc + [c];
          if c == BANG {
            phase := Stop1;
          }
        case Stop1 =>
          if index >= rd.size + 2 {
            return Overrun;
          }
          ghost var acc := buf[..index];
          buf[index] := c;
          if c == HASH {
            ghost var held := acc + [c];
            assert buf[..index + 1] == held && buf[..index - 1] == held[..|held| - 2];
            if rd.rule == Asserted && index - 1 != rd.size {
              return Aborted;
            }
            if lost(k) {
              k, index, phase := k + 1, 0, Start1;
              assert buf[..index] == [];
            } else if rd.rule == CopiesSize {
              if index + 1 < rd.size {
                return Partial(buf[..index + 1], input[pos..], k + 1);
              }
              assert buf[..rd.size] == held[..rd.size];
              return Received(buf[..rd.size], input[pos..], k + 1);
            } else {
              return Received(buf[..index - 1], input[pos..], k + 1);
            }
          } else {
            index := index + 1;
            assert buf[..index] == acc + [c];
            if c != BANG {
              phase := Recv;
            }
          }
      }
    }
    r := EndOfInput;
  }
}
