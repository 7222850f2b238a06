/** What reading and writing frames comes to octet by octet, in the terms of RFC 6455 section 5.2: nothing here
    refers to how `Frames` computes it. */
module WireFormat {
  import opened Prelude
  import opened Bytes
  import opened Frames

  // ---------------------------------------------------------------- reading

  /** The two fixed octets and the extended length. */
  function HeaderSize(s: seq<byte>): nat
    requires |s| >= 2
  {
    if s[1] % 128 == 126 then 4 else if s[1] % 128 == 127 then 10 else 2
  }

  /** The number whose most significant octet is `s[lo]` and whose least is `s[hi - 1]`. */
  function BigEndian(s: seq<byte>, lo: int, hi: int): nat
    requires 0 <= lo <= hi <= |s|
    decreases hi - lo
  {
    if lo == hi then 0 else s[lo] as nat * Pow256(hi - lo - 1) + BigEndian(s, lo + 1, hi)
  }

  function Announced(s: seq<byte>): nat
    requires |s| >= 2 && |s| >= HeaderSize(s)
  {
    if s[1] % 128 == 126 then s[2] as nat * 256 + s[3] as nat
    else if s[1] % 128 == 127 then BigEndian(s, 2, 10)
    else (s[1] % 128) as nat
  }

  /** The header and, if the mask bit is set, the key. */
  function PayloadAt(s: seq<byte>): nat
    requires |s| >= 2
  {
    HeaderSize(s) + if s[1] >= 128 then 4 else 0
  }

  lemma {:induction false} FromBytesIsBigEndian(s: seq<byte>, lo: int, hi: int)
    requires 0 <= lo <= hi <= |s|
    ensures FromBytes(s[lo..hi]) == BigEndian(s, lo, hi)
    decreases hi - lo
  {
    if lo < hi {
      FromBytesSplits(s[lo..hi]);
      assert s[lo..hi][1..] == s[lo + 1..hi];
      FromBytesIsBigEndian(s, lo + 1, hi);
    }
  }

  /** The first octet weighs most. */
  lemma {:induction false} FromBytesSplits(bs: seq<byte>)
    requires bs != []
    ensures FromBytes(bs) == bs[0] as nat * Pow256(|bs| - 1) + FromBytes(bs[1..])
    decreases |bs|
  {
    var n := |bs| - 1;
    if n > 0 {
      FromBytesSplits(bs[..n]);
      assert bs[..n][1..] == bs[1..][..n - 1] && bs[1..][n - 1] == bs[n];
      assert FromBytes(bs[1..]) == FromBytes(bs[1..][..n - 1]) * 256 + bs[n] as nat;
      hide FromBytes, Pow256;
      OneMoreOctet(bs[0] as nat, Pow256(n - 1), FromBytes(bs[1..][..n - 1]), bs[n] as nat);
      assert Pow256(n) == 256 * Pow256(n - 1) by { PowStep(n); }
    }
  }

  lemma PowStep(n: nat)
    requires n > 0
    ensures Pow256(n) == 256 * Pow256(n - 1)
  {}

  lemma OneMoreOctet(b: nat, p: nat, x: nat, last: nat)
    ensures (b * p + x) * 256 + last == b * (256 * p) + (x * 256 + last)
  {}

  /** Which input is a frame, and which error the other input is. */
  lemma WhenParsed(s: seq<byte>)
    ensures match Parse(s)
            case Parsed(_, _) => |s| >= 2 && |s| >= HeaderSize(s) && Announced(s) <= 67_108_864 && |s| >= PayloadAt(s) + Announced(s)
            case Bad(TooLarge, rest) =>
              |s| >= 2 && |s| >= HeaderSize(s) && Announced(s) > 67_108_864 && rest == s[HeaderSize(s)..]
            case Bad(EndOfInput, rest) =>
              rest == [] && (|s| < 2 || |s| < HeaderSize(s) || (Announced(s) <= 67_108_864 && |s| < PayloadAt(s) + Announced(s)))
            case _ => false
  {
    if |s| >= 2 {
      HeaderOnTheWire(s);
      hide Masked, Len7, FromBytes, Mask, Announced, HeaderSize;
    }
  }

  lemma HeaderOnTheWire(s: seq<byte>)
    requires |s| >= 2
    ensures HeaderSize(s) == 2 + ExtWidth(Len7(s[1]))
    ensures Masked(s[1]) <==> s[1] >= 128
    ensures Fin(s[0]) <==> s[0] >= 128
    ensures Opcode(s[0]) == s[0] % 16
    ensures |s| >= HeaderSize(s) ==>
              Announced(s) == if HeaderSize(s) == 2 then Len7(s[1]) else FromBytes(s[2..HeaderSize(s)])
  {
    assert s[1] & 0x7f == s[1] % 128;
    if |s| >= HeaderSize(s) && HeaderSize(s) > 2 {
      FromBytesIsBigEndian(s, 2, HeaderSize(s));
      if HeaderSize(s) == 4 {
        TwoOctets(s);
      }
    }
  }

  lemma TwoOctets(s: seq<byte>)
    requires |s| >= 4
    ensures BigEndian(s, 2, 4) == s[2] as nat * 256 + s[3] as nat
  {
    assert BigEndian(s, 3, 4) == s[3] as nat * Pow256(0) + BigEndian(s, 4, 4);
    assert Pow256(1) == 256;
  }

  /** The payload octets as they stand after a header of `h` octets: as they are, or, after the four octets of a
      key, each XORed with the key octet whose index is its own modulo 4 (section 5.3). */
  ghost predicate PayloadIs(s: seq<byte>, h: nat, masked: bool, payload: seq<byte>) {
    && |s| >= h + (if masked then 4 else 0) + |payload|
    && forall i :: 0 <= i < |payload| ==> payload[i] == if masked then s[h + 4 + i] ^ s[h + i % 4] else s[h + i]
  }

  /** Every frame read, octet by octet: the bits of the first octet, as many payload octets as announced,
      unmasked if the mask bit is set, and what follows them is left. */
  lemma ParsedOnTheWire(s: seq<byte>)
    requires Parse(s).Parsed?
    ensures |s| >= 2 && |s| >= HeaderSize(s) && |s| >= PayloadAt(s) + Announced(s)
    ensures var f := Parse(s).frame; var h := HeaderSize(s);
            && (f.fin <==> s[0] >= 128) && f.opcode == s[0] % 16
            && |f.payload| == Announced(s)
            && PayloadIs(s, h, s[1] >= 128, f.payload)
            && Parse(s).rest == s[PayloadAt(s) + Announced(s)..]
  {
    hide PayloadIs, Parse, ParseBody, Masked, Len7, FromBytes, Fin, Opcode, Announced, HeaderSize;
    WhenParsed(s);
    HeaderOnTheWire(s);
    ParseIsBody(s);
    BodyOnTheWire(s, HeaderSize(s), Fin(s[0]), Opcode(s[0]), Masked(s[1]), Announced(s));
  }

  lemma ParseIsBody(s: seq<byte>)
    requires |s| >= 2 && |s| >= HeaderSize(s)
    ensures Parse(s) == ParseBody(Fin(s[0]), Opcode(s[0]), Masked(s[1]), Announced(s), s[HeaderSize(s)..])
  {
    HeaderOnTheWire(s);
    hide Masked, Len7, FromBytes, Fin, Opcode, Announced, HeaderSize, ParseBody;
  }

  lemma BodyOnTheWire(s: seq<byte>, h: nat, fin: bool, opcode: byte, masked: bool, length: nat)
    requires h <= |s| && ParseBody(fin, opcode, masked, length, s[h..]).Parsed?
    ensures var p := ParseBody(fin, opcode, masked, length, s[h..]); var k := h + if masked then 4 else 0;
            && |s| >= k + length && |p.frame.payload| == length && p.rest == s[k + length..]
            && p.frame.fin == fin && p.frame.opcode == opcode
            && PayloadIs(s, h, masked, p.frame.payload)
  {
    var t := s[h..];
    var k := if masked then 4 else 0;
    Slices(s, h, k, length);
    hide Mask;
    if masked {
      MaskedSlice(s, h, length);
    }
  }

  lemma Slices(s: seq<byte>, h: nat, k: nat, length: nat)
    requires h + k + length <= |s|
    ensures s[h..][..k] == s[h..h + k] && s[h..][k..k + length] == s[h + k..h + k + length] && s[h..][k + length..] == s[h + k + length..]
  {}

  lemma MaskedSlice(s: seq<byte>, h: nat, length: nat)
    requires h + 4 + length <= |s|
    ensures PayloadIs(s, h, true, Mask(s[h + 4..h + 4 + length], s[h..h + 4]))
  {
    var raw, key := s[h + 4..h + 4 + length], s[h..h + 4];
    forall i | 0 <= i < length ensures Mask(raw, key)[i] == s[h + 4 + i] ^ s[h + i % 4] {
      assert raw[i] == s[h + 4 + i] && key[i % 4] == s[h + i % 4];
    }
  }

  // ---------------------------------------------------------------- writing

  /** Every frame written by the daemon, octet by octet: a first octet of final bit and opcode with the reserved
      bits zero, no mask bit, the length in the least form that holds it, and the payload as it is. */
  lemma PrintedOnTheWire(f: Frame)
    requires Printable(f)
    ensures var s := Print(f, None); var n := |f.payload|;
            && |s| >= 2 && s[0] == (if f.fin then 128 else 0) + f.opcode && s[1] < 128
            && HeaderSize(s) == (if n < 126 then 2 else if n < 65536 then 4 else 10)
            && |s| == HeaderSize(s) + n && Announced(s) == n && s[HeaderSize(s)..] == f.payload
  {
    var s := Print(f, None);
    assert s + [] == s;
    ParsePrint(f, None, []);
    HeadBits(f, false);
    FirstOctet(f.fin, f.opcode);
    assert s[0] == FirstByte(f.fin, f.opcode);
    HeaderOnTheWire(s);
    ParsedOnTheWire(s);
    assert s[|Head(f, false)|..] == f.payload;
    hide Parse, Fin, Opcode, Masked, Len7, FromBytes, Announced, HeaderSize, FirstByte, SecondByte;
  }

  lemma FirstOctet(fin: bool, opcode: byte)
    requires opcode < 16
    ensures FirstByte(fin, opcode) == (if fin then 128 else 0) + opcode
  {}

  // ---------------------------------------------------------------- messages

  /** One frame's part in reading a message, by its opcode: 0, 1 and 2 carry data, a final one ending the
      message; 9 is answered by a final unmasked frame of opcode 10 with the same data, which
      fails once the connection is closed; 8 ends the reading;
      anything else is passed over. */
  lemma ReadByOpcode(s: seq<byte>, sofar: seq<byte>, closed: bool)
    requires Parse(s).Parsed?
    ensures var f := Parse(s).frame; var rest := Parse(s).rest; var r := Read(s, sofar, closed);
            if f.opcode <= 2 then
              if |sofar| + |f.payload| > 67_108_864 then r == Reading(Failed(TooLarge), rest, [])
              else if f.fin then r == Reading(Message(sofar + f.payload), rest, [])
              else r == Read(rest, sofar + f.payload, closed)
            else if f.opcode == 8 then r == Reading(Failed(PeerClosed), rest, [])
            else if f.opcode == 9 && closed then r == Reading(Failed(ConnectionClosed), rest, [])
            else if f.opcode == 9 then
              var pong := Print(Frame(true, 10, f.payload), None);
              r.outcome == Read(rest, sofar, closed).outcome && r.rest == Read(rest, sofar, closed).rest
              && r.replies == pong + Read(rest, sofar, closed).replies
            else r == Read(rest, sofar, closed)
  {
    ParseShrinks(s);
    hide Parse, Print;
  }

  // ---------------------------------------------------------------- the examples of section 5.7

  const HELLO: seq<byte> := [0x48, 0x65, 0x6c, 0x6c, 0x6f]

  /** A single-frame unmasked text message. */
  lemma HelloExample()
    ensures Parse([0x81, 0x05, 0x48, 0x65, 0x6c, 0x6c, 0x6f]) == Parsed(Frame(true, 1, HELLO), [])
    ensures Print(Frame(true, 1, HELLO), None) == [0x81, 0x05, 0x48, 0x65, 0x6c, 0x6c, 0x6f]
  {
    hide Parse, Print;
    var f := Frame(true, 1, HELLO);
    var s := Print(f, None);
    PrintedOnTheWire(f);
    ShortLength(s, 5);
    assert s == s[..2] + s[2..];
    ParsePrint(f, None, []);
    assert s + [] == s == [0x81, 0x05, 0x48, 0x65, 0x6c, 0x6c, 0x6f];
  }

  lemma ShortLength(s: seq<byte>, n: byte)
    requires |s| >= 2 && s[1] < 128 && n < 126 && HeaderSize(s) == 2 && Announced(s) == n as nat
    ensures s[1] == n
  {
    assert s[1] % 128 == s[1];
    ValueReturns(s[1]);
    ValueReturns(n);
  }

  /** The same message masked. */
  lemma MaskedExample(s: seq<byte>)
    requires s == [0x81, 0x85, 0x37, 0xfa, 0x21, 0x3d, 0x7f, 0x9f, 0x4d, 0x51, 0x58]
    ensures Parse(s) == Parsed(Frame(true, 1, HELLO), [])
  {
    hide Parse;
    ShortMasked(s, 5);
    var payload := Parse(s).frame.payload;
    assert payload == [payload[0], payload[1], payload[2], payload[3], payload[4]];
    XorOctets();
  }

  lemma XorOctets()
    ensures 0x7f ^ 0x37 == 0x48 as byte && 0x9f ^ 0xfa == 0x65 as byte && 0x4d ^ 0x21 == 0x6c as byte
    ensures 0x51 ^ 0x3d == 0x6c as byte && 0x58 ^ 0x37 == 0x6f as byte
  {}

  lemma ShortMasked(s: seq<byte>, n: nat)
    requires n < 126 && |s| == 6 + n && s[1] >= 128 && s[1] as nat == 128 + n
    ensures var p := Parse(s);
            && p.Parsed? && p.frame.fin == (s[0] >= 128) && p.frame.opcode == s[0] % 16 && p.rest == []
            && |p.frame.payload| == n && forall i :: 0 <= i < n ==> p.frame.payload[i] == s[6 + i] ^ s[2 + i % 4]
  {
    hide Parse;
    SevenBits(s[1], n);
    WhenParsed(s);
    ParsedOnTheWire(s);
  }

  lemma SevenBits(b: byte, n: nat)
    requires n < 128 && b >= 128 && b as nat == 128 + n
    ensures (b % 128) as nat == n
  {
    var c := ByteWithValue(n);
    ValueReturns(b);
    assert (128 + c) as nat == 128 + n by { HighBit(c); }
    ValueReturns(128 + c);
  }

  lemma HighBit(c: byte)
    requires c < 128
    ensures (128 + c) as nat == 128 + c as nat
  {}

  /** A fragmented text message with a ping in between: the message, and the pong to it. */
  lemma FragmentedExample(s: seq<byte>, t: seq<byte>, u: seq<byte>)
    requires u == [0x80, 0x02, 0x6c, 0x6f] && t == [0x89, 0x01, 0x21] + u && s == [0x01, 0x03, 0x48, 0x65, 0x6c] + t
    ensures Read(s, [], false) == Reading(Message(HELLO), [], [0x8a, 0x01, 0x21])
  {
    hide Read, Parse, Print;
    var start: seq<byte>, end: seq<byte>, mark: seq<byte> := [0x48, 0x65, 0x6c], [0x6c, 0x6f], [0x21];
    ShortFrame(s, 3, t);
    ShortFrame(t, 1, u);
    ShortFrame(u, 2, []);
    assert s[2..5] == start && t[2..3] == mark && u[2..4] == end;
    PongExample();
    FragmentsAndPing(s, t, u, start, end, mark);
    assert start + end == HELLO;
  }

  lemma FragmentsAndPing(s: seq<byte>, t: seq<byte>, u: seq<byte>, start: seq<byte>, end: seq<byte>, mark: seq<byte>)
    requires Parse(s) == Parsed(Frame(false, 1, start), t) && Parse(t) == Parsed(Frame(true, 9, mark), u)
    requires Parse(u) == Parsed(Frame(true, 0, end), []) && |start + end| <= 67_108_864
    ensures Read(s, [], false) == Reading(Message(start + end), [], Print(Frame(true, 10, mark), None))
  {
    hide Read, Parse, Print;
    ReadByOpcode(s, [], false);
    ReadByOpcode(t, start, false);
    ReadByOpcode(u, start, false);
    Regroup(Print(Frame(true, 10, mark), None), [], []);
    assert [] + start == start;
  }

  lemma PongExample()
    ensures Print(Frame(true, 10, [0x21]), None) == [0x8a, 0x01, 0x21]
  {
    hide Print;
    var f := Frame(true, 10, [0x21]);
    var s := Print(f, None);
    PrintedOnTheWire(f);
    ShortLength(s, 1);
    assert s == s[..2] + s[2..];
  }

  /** A short unmasked frame at the head of the input. */
  lemma ShortFrame(s: seq<byte>, n: nat, rest: seq<byte>)
    requires n < 126 && |s| >= 2 + n && s[1] < 128 && s[1] as nat == n && rest == s[2 + n..]
    ensures Parse(s) == Parsed(Frame(s[0] >= 128, s[0] % 16, s[2..2 + n]), rest)
  {
    hide Parse;
    assert s[1] % 128 == s[1];
    WhenParsed(s);
    ParsedOnTheWire(s);
  }
}
