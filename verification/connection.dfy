/** One upgraded connection: the bytes still to be read, the bytes written so far, and the closed
    flag. */
module Connection {
  import opened Prelude
  import opened Bytes
  import opened Frames

  /** FIN and close opcode, two payload bytes, status 1000. */
  const CLOSE_FRAME: seq<byte> := [0x88, 0x02, 0x03, 0xe8]

  class Conn {
    var br: seq<byte>        // everything the peer will have sent before the stream ends
    var bw: seq<byte>        // everything flushed to the peer
    var closed: bool
    ghost var sent: seq<Frame>

    /** What went out is a run of whole unmasked frames, with a single close frame at the very end once
        the connection is closed. */
    ghost predicate Valid()
      reads this
    {
      && bw == Wire(Unmasked(sent)) + (if closed then CLOSE_FRAME else [])
      && forall f :: f in sent ==> f.opcode < 16
    }

    constructor (input: seq<byte>)
      ensures Valid() && br == input && bw == [] && !closed && sent == []
    {
      br, bw, closed, sent := input, [], false, [];
    }

    /** Takes exactly `n` bytes, or whatever is left and reports the end. */
    method ReadFull(n: nat) returns (ok: bool, bytes: seq<byte>)
      modifies this`br
      ensures ok <==> |old(br)| >= n
      ensures ok ==> bytes == old(br)[..n] && br == old(br)[n..]
      ensures !ok ==> br == []
    {
      if |br| >= n {
        ok, bytes, br := true, br[..n], br[n..];
      } else {
        ok, bytes, br := false, br, [];
      }
    }

    /** Unmasks in place, byte by byte. */
    static method Unmask(payload: array<byte>, key: seq<byte>)
      requires |key| == 4
      modifies payload
      ensures payload[..] == Mask(old(payload[..]), key)
    {
      for i := 0 to payload.Length
        invariant forall j :: 0 <= j < i ==> payload[j] == old(payload[j]) ^ key[j % 4]
        invariant forall j :: i <= j < payload.Length ==> payload[j] == old(payload[j])
      {
        payload[i] := payload[i] ^ key[i % 4];
      }
    }

    method ReadFrame() returns (p: Parsed)
      modifies this`br
      ensures p == Parse(old(br))
      ensures br == p.rest
    {
      ghost var s := br;
      var ok, hdr := ReadFull(2);
      if !ok {
        return Bad(EndOfInput, br);
      }
      assert hdr[0] == s[0] && hdr[1] == s[1];
      var fin, opcode := Fin(hdr[0]), Opcode(hdr[0]);
      var masked, length := Masked(hdr[1]), Len7(hdr[1]);
      ghost var h := 2 + ExtWidth(length);
      if length == 126 {
        var ext;
        ok, ext := ReadFull(2);
        if !ok {
          return Bad(EndOfInput, br);
        }
        assert ext == s[2..h];
        length := FromBytes(ext);
      } else if length == 127 {
        var ext;
        ok, ext := ReadFull(8);
        if !ok {
          return Bad(EndOfInput, br);
        }
        assert ext == s[2..h];
        length := FromBytes(ext);
      }
      assert br == s[h..];
      p := ReadBody(fin, opcode, masked, length);
    }

    /** The part of reading a frame after its length is known. */
    method ReadBody(fin: bool, opcode: byte, masked: bool, length: nat) returns (p: Parsed)
      modifies this`br
      ensures p == ParseBody(fin, opcode, masked, length, old(br))
      ensures br == p.rest
    {
      if length > MAX_SIZE {
        return Bad(TooLarge, br);
      }
      var ok, key := true, [0, 0, 0, 0];
      if masked {
        ok, key := ReadFull(4);
        if !ok {
          return Bad(EndOfInput, br);
        }
      }
      var raw;
      ok, raw := ReadFull(length);
      if !ok {
        return Bad(EndOfInput, br);
      }
      var payload := new byte[length](i requires 0 <= i < |raw| => raw[i]);
      assert payload[..] == raw;
      if masked {
        Unmask(payload, key);
      }
      p := Parsed(Frame(fin, opcode, payload[..]), br);
    }

    /** Writes one final frame, unless the connection is closed; then nothing goes out. */
    method WriteFrame(opcode: byte, payload: seq<byte>) returns (ok: bool)
      requires Valid() && opcode < 16
      modifies this`bw, this`sent
      ensures Valid()
      ensures ok <==> !closed
      ensures ok ==> bw == old(bw) + Print(Frame(true, opcode, payload), None)
      ensures sent == if ok then old(sent) + [Frame(true, opcode, payload)] else old(sent)
      ensures !ok ==> bw == old(bw)
    {
      if closed {
        return false;
      }
      var f := Frame(true, opcode, payload);
      var hdr := HeaderFor(f);
      Regroup(hdr, [], []);
      Regroup(bw, hdr, payload);
      Regroup(bw, [], []);
      WireAppend(sent, f);
      hide Print, Wire;
      Regroup(Wire(Unmasked(sent)), Print(f, None), []);
      bw := bw + hdr;
      if |payload| > 0 {
        bw := bw + payload;
      }
      sent := sent + [f];
      return true;
    }

    /** First byte and length of an unmasked frame: one, three or nine bytes of length. */
    static method HeaderFor(f: Frame) returns (hdr: seq<byte>)
      requires f.fin && f.opcode < 16
      ensures hdr + f.payload == Print(f, None)
    {
      var n := |f.payload|;
      var length: seq<byte>;
      if n < 126 {
        length := [LowByte(n)];
      } else if n < 65536 {
        length := [126, LowByte(n / 256), LowByte(n)];
      } else {
        length := [127] + ToBytes(n, 8);
      }
      assert length == LengthBytes(n);
      HeaderBytes(f);
      hide Head, ToBytes;
      hdr := [0x80 | f.opcode] + length;
    }

    /** Reads the next whole message, answering pings. */
    method ReadMessage() returns (outcome: Outcome)
      requires Valid()
      modifies this`br, this`bw, this`sent
      ensures Valid()
      ensures var r := Read(old(br), [], closed);
              outcome == r.outcome && br == r.rest && bw == old(bw) + r.replies
    {
      var payload: seq<byte> := [];
      ghost var whole := Read(br, [], closed);
      ghost var answered: seq<byte> := [];
      assert [] + whole.replies == whole.replies;
      while true
        invariant Valid()
        invariant |answered| > 0 ==> !closed
        invariant bw == old(bw) + answered
        invariant var r := Read(br, payload, closed);
                  whole == r.(replies := answered + r.replies)
        decreases |br|
      {
        ghost var s := br;
        ParseShrinks(s);
        var p := ReadFrame();
        hide Parse;
        if p.Bad? {
          return Failed(p.error);
        }
        var f := p.frame;
        match KindOf(f) {
          case Data =>
            if |payload| + |f.payload| > MAX_SIZE {
              return Failed(TooLarge);
            }
            payload := payload + f.payload;
            if f.fin {
              return Message(payload);
            }
          case Ping =>
            var ok := WriteFrame(PONG, f.payload);
            if !ok {
              return Failed(ConnectionClosed);
            }
            Regroup(old(bw), answered, Reply(f));
            Regroup(answered, Reply(f), Read(p.rest, payload, closed).replies);
            answered := answered + Reply(f);
          case Skipped =>
          case Close =>
            return Failed(PeerClosed);
        }
      }
    }

    /** Sends the one close frame; a second close does nothing. */
    method Close()
      requires Valid()
      modifies this`bw, this`closed
      ensures Valid() && closed
      ensures bw == if old(closed) then old(bw) else old(bw) + CLOSE_FRAME
    {
      if closed {
        return;
      }
      closed := true;
      bw := bw + CLOSE_FRAME;
      assert old(bw) + [] == old(bw);
    }
  }

  /** A peer that reads everything written recovers exactly the frames sent, in order, and after a close
      one close frame with status 1000, with nothing left over. */
  lemma OutputReadsBack(sent: seq<Frame>, closed: bool)
    requires forall f :: f in sent ==> Printable(f)
    ensures var out := Wire(Unmasked(sent)) + (if closed then CLOSE_FRAME else []);
            Yields(out, sent + (if closed then [Frame(true, CLOSE, [0x03, 0xe8])] else []), [])
  {
    var f := Frame(true, CLOSE, [0x03, 0xe8]);
    var all := sent + (if closed then [f] else []);
    assert Sendable(Unmasked(all));
    StreamRoundTrip(Unmasked(all), []);
    assert Contents(Unmasked(all)) == all;
    if closed {
      WireAppend(sent, f);
      assert Print(f, None) == CLOSE_FRAME by { ClosePrinted(); }
    } else {
      assert all == sent;
    }
    Regroup(Wire(Unmasked(all)), [], []);
  }

  lemma ClosePrinted()
    ensures Print(Frame(true, CLOSE, [0x03, 0xe8]), None) == CLOSE_FRAME
  {
    var f := Frame(true, CLOSE, [0x03, 0xe8]);
    HeaderBytes(f);
    assert LengthBytes(2) == [2 as byte];
    hide Head;
    assert [0x80 | CLOSE] + [2 as byte] + f.payload == CLOSE_FRAME;
  }
}
