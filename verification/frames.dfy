/** The wire format of RFC 6455 section 5.2 as the daemon reads and writes it. */
module Frames {
  import opened Prelude
  import opened Bytes

  /** Cap on a frame and on an assembled message: 64 MiB. */
  const MAX_SIZE := 67_108_864

  const CONTINUATION: byte := 0
  const TEXT: byte := 1
  const BINARY: byte := 2
  const CLOSE: byte := 8
  const PING: byte := 9
  const PONG: byte := 10

  datatype Frame = Frame(fin: bool, opcode: byte, payload: seq<byte>)

  datatype Error = EndOfInput | TooLarge | ConnectionClosed | PeerClosed

  datatype Parsed =
    | Parsed(frame: Frame, rest: seq<byte>)
    | Bad(error: Error, rest: seq<byte>)

  // ---------------------------------------------------------------- big-endian numbers

  function FromBytes(bs: seq<byte>): nat {
    if bs == [] then 0 else FromBytes(bs[..|bs| - 1]) * 256 + bs[|bs| - 1] as nat
  }

  function ToBytes(n: nat, width: nat): (bs: seq<byte>)
    ensures |bs| == width
    decreases width
  {
    if width == 0 then [] else ToBytes(n / 256, width - 1) + [LowByte(n)]
  }

  function Pow256(k: nat): nat {
    if k == 0 then 1 else 256 * Pow256(k - 1)
  }

  /** Numbers that fit come back; longer ones would be cut. */
  lemma {:induction false} BytesRoundTrip(n: nat, width: nat)
    requires n < Pow256(width)
    ensures FromBytes(ToBytes(n, width)) == n
    decreases width
  {
    if width > 0 {
      BytesRoundTrip(n / 256, width - 1);
      LowByteValue(n);
      hide LowByte;
      assert ToBytes(n, width)[..width - 1] == ToBytes(n / 256, width - 1);
    }
  }

  lemma {:induction false} FromBytesBound(bs: seq<byte>)
    ensures FromBytes(bs) < Pow256(|bs|)
    decreases |bs|
  {
    if bs != [] {
      FromBytesBound(bs[..|bs| - 1]);
    }
  }

  // ---------------------------------------------------------------- masking

  function Mask(payload: seq<byte>, key: seq<byte>): (masked: seq<byte>)
    requires |key| == 4
    ensures |masked| == |payload|
  {
    seq(|payload|, i requires 0 <= i < |payload| => payload[i] ^ key[i % 4])
  }

  lemma XorTwice(b: byte, k: byte)
    ensures (b ^ k) ^ k == b
  {}

  /** Masking with the same key twice gives the payload back (section 5.3). */
  lemma UnmaskMask(payload: seq<byte>, key: seq<byte>)
    requires |key| == 4
    ensures Mask(Mask(payload, key), key) == payload
  {
    forall i | 0 <= i < |payload| ensures Mask(Mask(payload, key), key)[i] == payload[i] {
      XorTwice(payload[i], key[i % 4]);
    }
  }

  // ---------------------------------------------------------------- parsing

  function Fin(b0: byte): bool { b0 & 0x80 != 0 }
  function Opcode(b0: byte): byte { b0 & 0x0f }
  function Masked(b1: byte): bool { b1 & 0x80 != 0 }
  function Len7(b1: byte): nat { (b1 & 0x7f) as nat }

  /** How many extra length bytes the 7-bit field announces. */
  function ExtWidth(len7: nat): nat {
    if len7 == 126 then 2 else if len7 == 127 then 8 else 0
  }

  function Parse(s: seq<byte>): Parsed {
    if |s| < 2 then Bad(EndOfInput, [])
    else
      var len7 := Len7(s[1]);
      var h := 2 + ExtWidth(len7);
      if |s| < h then Bad(EndOfInput, [])
      else
        var length := if h == 2 then len7 else FromBytes(s[2..h]);
        ParseBody(Fin(s[0]), Opcode(s[0]), Masked(s[1]), length, s[h..])
  }

  /** What comes after the length: the size check, the mask key if there is one, the payload. */
  function ParseBody(fin: bool, opcode: byte, masked: bool, length: nat, t: seq<byte>): Parsed {
    if length > MAX_SIZE then Bad(TooLarge, t)
    else
      var k := if masked then 4 else 0;
      if |t| < k + length then Bad(EndOfInput, [])
      else
        var raw := t[k..k + length];
        Parsed(Frame(fin, opcode, if masked then Mask(raw, t[..4]) else raw), t[k + length..])
  }

  // ---------------------------------------------------------------- printing

  /** The value of the 7-bit field for a payload of `n` bytes. */
  function LenField(n: nat): nat {
    if n < 126 then n else if n < 65536 then 126 else 127
  }

  function FirstByte(fin: bool, opcode: byte): byte {
    (if fin then 0x80 else 0) | opcode
  }

  function SecondByte(masked: bool, n: nat): byte {
    (if masked then 0x80 else 0) | FieldByte(n)
  }

  function FieldByte(n: nat): byte {
    if n < 126 then LowByte(n) else if n < 65536 then 126 else 127
  }

  function Head(f: Frame, masked: bool): (head: seq<byte>)
    ensures |head| == 2 + ExtWidth(LenField(|f.payload|))
  {
    var n := |f.payload|;
    [FirstByte(f.fin, f.opcode), SecondByte(masked, n)] + ToBytes(n, ExtWidth(LenField(n)))
  }

  /** A frame on the wire, with a mask key (as a browser sends it) or without (as the daemon does). */
  function Print(f: Frame, key: Option<seq<byte>>): seq<byte>
    requires key.Some? ==> |key.value| == 4
  {
    match key
    case None => Head(f, false) + f.payload
    case Some(k) => Head(f, true) + k + Mask(f.payload, k)
  }

  ghost predicate Printable(f: Frame) {
    f.opcode < 16 && |f.payload| <= MAX_SIZE
  }

  lemma FirstByteBits(fin: bool, opcode: byte)
    requires opcode < 16
    ensures Fin(FirstByte(fin, opcode)) == fin && Opcode(FirstByte(fin, opcode)) == opcode
  {}

  lemma SecondByteBits(masked: bool, n: nat)
    ensures Masked(SecondByte(masked, n)) == masked && Len7(SecondByte(masked, n)) == LenField(n)
  {
    LowByteValue(n);
    hide LowByte;
  }

  lemma LengthFits(n: nat)
    requires n <= MAX_SIZE
    ensures n < 126 || n < Pow256(ExtWidth(LenField(n)))
  {
    assert Pow256(2) == 65536;
    assert Pow256(8) == 65536 * 65536 * 65536 * 65536 by {
      assert Pow256(4) == 65536 * 65536;
      assert Pow256(6) == 65536 * 65536 * 65536;
    }
  }

  /** The bits of a printed header read back. */
  lemma HeadBits(f: Frame, masked: bool)
    requires Printable(f)
    ensures var head := Head(f, masked);
            && Fin(head[0]) == f.fin && Opcode(head[0]) == f.opcode
            && Masked(head[1]) == masked && Len7(head[1]) == LenField(|f.payload|)
  {
    FirstByteBits(f.fin, f.opcode);
    SecondByteBits(masked, |f.payload|);
    hide ToBytes, FirstByte, SecondByte, Fin, Opcode, Masked, Len7;
  }

  /** The fields of a printed header read back. */
  lemma HeadFields(f: Frame, masked: bool)
    requires Printable(f)
    ensures var head := Head(f, masked); var n := |f.payload|;
            && Fin(head[0]) == f.fin && Opcode(head[0]) == f.opcode
            && Masked(head[1]) == masked && Len7(head[1]) == LenField(n)
            && (n >= 126 ==> FromBytes(head[2..]) == n)
  {
    HeadBits(f, masked);
    hide Fin, Opcode, Masked, Len7;
    var n := |f.payload|;
    LengthFits(n);
    assert Head(f, masked)[2..] == ToBytes(n, ExtWidth(LenField(n)));
    hide ToBytes, FromBytes, Pow256, Head;
    if n >= 126 {
      BytesRoundTrip(n, ExtWidth(LenField(n)));
    }
  }

  /** Parsing from the pieces: header, key, raw payload and what follows. */
  lemma ParsePieces(head: seq<byte>, key: seq<byte>, raw: seq<byte>, rest: seq<byte>)
    requires |head| >= 2 && |head| == 2 + ExtWidth(Len7(head[1]))
    requires |raw| == (if |head| == 2 then Len7(head[1]) else FromBytes(head[2..])) && |raw| <= MAX_SIZE
    requires |key| == if Masked(head[1]) then 4 else 0
    ensures Parse(head + key + raw + rest)
            == Parsed(Frame(Fin(head[0]), Opcode(head[0]), if Masked(head[1]) then Mask(raw, key) else raw), rest)
  {
    hide FromBytes, Mask, Masked, Len7, Fin, Opcode, ParseBody;
    var s := head + key + raw + rest;
    BodyPieces(Fin(head[0]), Opcode(head[0]), key, raw, rest);
    assert s[2..|head|] == head[2..] && s[|head|..] == key + raw + rest;
  }

  lemma BodyPieces(fin: bool, opcode: byte, key: seq<byte>, raw: seq<byte>, rest: seq<byte>)
    requires |key| == 0 || |key| == 4
    requires |raw| <= MAX_SIZE
    ensures ParseBody(fin, opcode, |key| == 4, |raw|, key + raw + rest)
            == Parsed(Frame(fin, opcode, if |key| == 4 then Mask(raw, key) else raw), rest)
  {
    hide Mask;
    var t := key + raw + rest;
    assert t[..|key|] == key && t[|key|..|key| + |raw|] == raw && t[|key| + |raw|..] == rest;
  }

  /** Reading what was printed: the same frame, and exactly the bytes after it are left. */
  lemma ParsePrint(f: Frame, key: Option<seq<byte>>, rest: seq<byte>)
    requires Printable(f) && (key.Some? ==> |key.value| == 4)
    ensures Parse(Print(f, key) + rest) == Parsed(f, rest)
  {
    var head := Head(f, key.Some?);
    HeadFields(f, key.Some?);
    hide Head, FromBytes, Masked, Len7, Fin, Opcode;
    match key
    case None =>
      assert head + f.payload + rest == head + [] + f.payload + rest;
      ParsePieces(head, [], f.payload, rest);
    case Some(k) =>
      UnmaskMask(f.payload, k);
      ParsePieces(head, k, Mask(f.payload, k), rest);
  }

  /** A frame that was read does not need a longer length field than the one it came with. */
  lemma ShortestField(s: seq<byte>)
    requires Parse(s).Parsed?
    ensures |s| >= 2 && ExtWidth(LenField(|Parse(s).frame.payload|)) <= ExtWidth(Len7(s[1]))
  {
    hide Mask, Masked, Fin, Opcode;
    var h := 2 + ExtWidth(Len7(s[1]));
    assert Pow256(2) == 65536;
    if h > 2 {
      FromBytesBound(s[2..h]);
    }
    hide Len7, FromBytes, Pow256;
  }

  /** The printed form uses the shortest length field: no byte string that reads as the same frame, with
      or without a mask, is shorter than the one printed that way. */
  lemma PrintIsShortest(s: seq<byte>)
    requires Parse(s).Parsed?
    ensures var p := Parse(s);
            |s| - |p.rest| >= |Print(p.frame, None)| + (if Masked(s[1]) then 4 else 0)
  {
    ShortestField(s);
    hide FromBytes, ToBytes, Mask, Masked, Fin, Opcode, Len7;
  }

  // ---------------------------------------------------------------- streams of frames

  /** A frame with the key its sender masked it with, if any. */
  datatype Item = Item(frame: Frame, key: Option<seq<byte>>)

  ghost predicate Sendable(items: seq<Item>) {
    forall it :: it in items ==> Printable(it.frame) && (it.key.Some? ==> |it.key.value| == 4)
  }

  function Wire(items: seq<Item>): seq<byte>
    requires forall it :: it in items ==> it.key.Some? ==> |it.key.value| == 4
  {
    if items == [] then [] else Print(items[0].frame, items[0].key) + Wire(items[1..])
  }

  function Contents(items: seq<Item>): (fs: seq<Frame>)
    ensures |fs| == |items| && forall i :: 0 <= i < |fs| ==> fs[i] == items[i].frame
  {
    seq(|items|, i requires 0 <= i < |items| => items[i].frame)
  }

  /** Reading frames one after another yields exactly `fs` and stops before `rest`. */
  ghost predicate Yields(s: seq<byte>, fs: seq<Frame>, rest: seq<byte>)
    decreases |fs|
  {
    if fs == [] then s == rest
    else Parse(s).Parsed? && Parse(s).frame == fs[0] && Yields(Parse(s).rest, fs[1..], rest)
  }

  /** Frame stream round trip, any mix of masked and unmasked frames. */
  lemma {:induction false} StreamRoundTrip(items: seq<Item>, rest: seq<byte>)
    requires Sendable(items)
    ensures Yields(Wire(items) + rest, Contents(items), rest)
    decreases |items|
  {
    if items == [] {
      assert Wire(items) + rest == rest;
    } else {
      var it := items[0];
      assert Wire(items) + rest == Print(it.frame, it.key) + (Wire(items[1..]) + rest);
      ParsePrint(it.frame, it.key, Wire(items[1..]) + rest);
      assert Contents(items)[1..] == Contents(items[1..]);
      StreamRoundTrip(items[1..], rest);
    }
  }

  /** A byte stream has only one reading: two readings of one length agree. */
  lemma {:induction false} ReadingIsUnique(s: seq<byte>, fs: seq<Frame>, gs: seq<Frame>, rest: seq<byte>, rest': seq<byte>)
    requires Yields(s, fs, rest) && Yields(s, gs, rest') && |fs| == |gs|
    ensures fs == gs && rest == rest'
    decreases |fs|
  {
    if fs != [] {
      ReadingIsUnique(Parse(s).rest, fs[1..], gs[1..], rest, rest');
      assert fs == [fs[0]] + fs[1..] && gs == [gs[0]] + gs[1..];
    }
  }

  function Unmasked(fs: seq<Frame>): (items: seq<Item>)
    ensures |items| == |fs| && forall i :: 0 <= i < |fs| ==> items[i] == Item(fs[i], None)
  {
    seq(|fs|, i requires 0 <= i < |fs| => Item(fs[i], None))
  }

  lemma {:induction false} WireAppend(fs: seq<Frame>, f: Frame)
    ensures Wire(Unmasked(fs + [f])) == Wire(Unmasked(fs)) + Print(f, None)
    decreases |fs|
  {
    hide Print;
    var items := Unmasked(fs + [f]);
    if fs == [] {
      assert items[1..] == [];
      assert Wire(items) == Print(f, None) + [] && Wire(Unmasked(fs)) == [];
    } else {
      assert (fs + [f])[1..] == fs[1..] + [f];
      assert items[1..] == Unmasked(fs[1..] + [f]) && Unmasked(fs)[1..] == Unmasked(fs[1..]);
      WireAppend(fs[1..], f);
    }
  }

  /** The length part of a header as the writer assembles it. */
  function LengthBytes(n: nat): seq<byte> {
    if n < 126 then [LowByte(n)]
    else if n < 65536 then [126, LowByte(n / 256), LowByte(n)]
    else [127] + ToBytes(n, 8)
  }

  /** The writer's header is the printed one. */
  lemma HeaderBytes(f: Frame)
    requires f.fin
    ensures [0x80 | f.opcode] + LengthBytes(|f.payload|) == Head(f, false)
  {
    var n := |f.payload|;
    assert FirstByte(true, f.opcode) == 0x80 | f.opcode;
    ZeroOr(FieldByte(n));
    assert LengthBytes(n) == [FieldByte(n)] + ToBytes(n, ExtWidth(LenField(n))) by {
      hide LowByte;
      assert ToBytes(n, 0) == [];
      assert ToBytes(n, 2) == ToBytes(n / 256, 1) + [LowByte(n)] && ToBytes(n / 256, 1) == ToBytes(n / 256 / 256, 0) + [LowByte(n / 256)];
    }
  }

  lemma ZeroOr(b: byte)
    ensures 0 | b == b
  {}

  // ---------------------------------------------------------------- messages

  datatype Reading = Reading(outcome: Outcome, rest: seq<byte>, replies: seq<byte>)
  datatype Outcome = Message(text: seq<byte>) | Failed(error: Error)

  datatype Kind = Data | Ping | Close | Skipped

  /** What the reader does with a frame depends only on this; it has no case for other opcodes. */
  function KindOf(f: Frame): Kind {
    if f.opcode == TEXT || f.opcode == BINARY || f.opcode == CONTINUATION then Data
    else if f.opcode == PING then Ping
    else if f.opcode == CLOSE then Close
    else Skipped
  }

  /** A ping is answered by a pong that carries the same data. */
  function Reply(f: Frame): seq<byte> {
    if KindOf(f) == Ping then Print(Frame(true, PONG, f.payload), None) else []
  }

  lemma ParseShrinks(s: seq<byte>)
    ensures Parse(s).Parsed? ==> |Parse(s).rest| < |s|
  {}

  /** What reading a message from `s` does, `sofar` being the fragments already taken: the outcome, the
      input left, and the bytes sent in reply to pings on the way. Opcodes the code has no case for are
      skipped. */
  function Read(s: seq<byte>, sofar: seq<byte>, closed: bool): Reading
    decreases |s|
  {
    match Parse(s)
    case Bad(e, rest) => Reading(Failed(e), rest, [])
    case Parsed(f, rest) =>
      ParseShrinks(s);
      match KindOf(f)
      case Data =>
        if |sofar| + |f.payload| > MAX_SIZE then Reading(Failed(TooLarge), rest, [])
        else if f.fin then Reading(Message(sofar + f.payload), rest, [])
        else Read(rest, sofar + f.payload, closed)
      case Ping =>
        if closed then Reading(Failed(ConnectionClosed), rest, [])
        else var r := Read(rest, sofar, closed); r.(replies := Reply(f) + r.replies)
      case Close => Reading(Failed(PeerClosed), rest, [])
      case Skipped => Read(rest, sofar, closed)
  }

  /** The frames of one message with anything but a close in between: data frames up to the final one. */
  ghost predicate OneMessage(fs: seq<Frame>) {
    && fs != []
    && if |fs| == 1 then KindOf(fs[0]) == Data && fs[0].fin
       else (KindOf(fs[0]) == Data ==> !fs[0].fin) && KindOf(fs[0]) != Close && OneMessage(fs[1..])
  }

  function Body(fs: seq<Frame>): seq<byte> {
    if fs == [] then [] else (if KindOf(fs[0]) == Data then fs[0].payload else []) + Body(fs[1..])
  }

  function Replies(fs: seq<Frame>): seq<byte> {
    if fs == [] then [] else Reply(fs[0]) + Replies(fs[1..])
  }

  lemma SingleFrame(f: Frame)
    requires KindOf(f) == Data
    ensures Body([f]) == f.payload && Replies([f]) == []
    ensures f.fin ==> OneMessage([f])
  {
    assert [f][1..] == [];
  }

  lemma ConsFrame(f: Frame, tail: seq<Frame>)
    ensures Body([f] + tail) == (if KindOf(f) == Data then f.payload else []) + Body(tail)
    ensures Replies([f] + tail) == Reply(f) + Replies(tail)
    ensures tail != [] ==> (OneMessage([f] + tail) <==>
              OneMessage(tail) && (KindOf(f) == Data ==> !f.fin) && KindOf(f) != Close)
  {
    hide KindOf, Reply;
    assert ([f] + tail)[1..] == tail;
  }

  /** One step of a reading: a final data frame ends it with the message, and any other frame that is
      neither a close nor an overflow is taken and the rest is read. */
  lemma ReadStep(s: seq<byte>, sofar: seq<byte>)
    requires Parse(s).Parsed?
    ensures var f := Parse(s).frame; var rest := Parse(s).rest; var r := Read(s, sofar, false);
            var sofar' := if KindOf(f) == Data then sofar + f.payload else sofar;
            && |rest| < |s|
            && if KindOf(f) == Close || (|sofar'| > MAX_SIZE && KindOf(f) == Data) then r.outcome.Failed?
               else if KindOf(f) == Data && f.fin then r == Reading(Message(sofar'), rest, [])
               else r == Read(rest, sofar', false).(replies := Reply(f) + Read(rest, sofar', false).replies)
  {
    ParseShrinks(s);
    hide Parse, KindOf;
    var f := Parse(s).frame;
    assert KindOf(f) != Ping ==> Reply(f) == [];
  }

  /** Frames that form one message within the size limit read as that message. */
  lemma {:induction false} ReadsMessage(s: seq<byte>, fs: seq<Frame>, rest: seq<byte>, sofar: seq<byte>)
    requires Yields(s, fs, rest) && OneMessage(fs) && |sofar| + |Body(fs)| <= MAX_SIZE
    ensures Read(s, sofar, false) == Reading(Message(sofar + Body(fs)), rest, Replies(fs))
    decreases |fs|
  {
    var f, tail := fs[0], fs[1..];
    assert fs == [f] + tail;
    assert |tail| == 0 ==> Parse(s).rest == rest;
    ReadStep(s, sofar);
    if tail == [] {
      SingleFrame(f);
    } else {
      ConsFrame(f, tail);
      hide Read, Parse, Reply, KindOf, Body, Replies, OneMessage;
      var data := if KindOf(f) == Data then f.payload else [];
      Regroup(sofar, data, Body(tail));
      ReadsMessage(Parse(s).rest, tail, rest, sofar + data);
    }
  }

  /** Conversely a message read is always the body of such frames, and its replies are theirs. */
  lemma {:induction false} MessageComesFromFrames(s: seq<byte>, sofar: seq<byte>) returns (fs: seq<Frame>)
    requires Read(s, sofar, false).outcome.Message? && |sofar| <= MAX_SIZE
    ensures Yields(s, fs, Read(s, sofar, false).rest) && OneMessage(fs)
    ensures Read(s, sofar, false).outcome.text == sofar + Body(fs) && |sofar| + |Body(fs)| <= MAX_SIZE
    ensures Read(s, sofar, false).replies == Replies(fs)
    decreases |s|
  {
    assert Parse(s).Parsed?;
    ReadStep(s, sofar);
    hide Read, Parse, Reply, KindOf, OneMessage, Body, Replies;
    var f, rest := Parse(s).frame, Parse(s).rest;
    if KindOf(f) == Data && f.fin {
      fs := [f];
      SingleFrame(f);
      assert Yields(rest, [], rest);
    } else {
      var data := if KindOf(f) == Data then f.payload else [];
      Regroup(sofar, data, []);
      var tail := MessageComesFromFrames(rest, sofar + data);
      fs := [f] + tail;
      ConsFrame(f, tail);
      Regroup(sofar, data, Body(tail));
      assert fs[1..] == tail;
    }
  }

  /** Reassembly: however a payload within the limit is split into fragments, whatever mask keys are
      used and whatever pings, pongs and unknown frames stand in between, reading returns exactly the
      payload, answers the pings in order with their own data, and stops at the next frame. */
  lemma Reassembly(items: seq<Item>, payload: seq<byte>, rest: seq<byte>)
    requires Sendable(items) && OneMessage(Contents(items))
    requires Body(Contents(items)) == payload && |payload| <= MAX_SIZE
    ensures Read(Wire(items) + rest, [], false) == Reading(Message(payload), rest, Replies(Contents(items)))
  {
    hide Wire, Contents, OneMessage, Body, Replies, Read;
    StreamRoundTrip(items, rest);
    ReadsMessage(Wire(items) + rest, Contents(items), rest, []);
    assert [] + payload == payload;
  }
}
