/**
 Frames of the WebSocket protocol (RFC 6455, sections 5.2 and 5.3), as `writeWSFrame` and
 `readWSFrame` in `internal/provider/chromemcpbridge/bridge.go` write and read them.
 */
module WebSocketFrames {
  import opened Options

  type Bytes = seq<bv8>

  const TEXT: bv8 := 0x1
  const CLOSE: bv8 := 0x8
  const PING: bv8 := 0x9

  const FINAL_FRAME: bv8 := 0x80
  const MASK_BIT: bv8 := 0x80
  const LENGTH_IN_TWO: bv8 := 126
  const LENGTH_IN_EIGHT: bv8 := 127

  /** What Go's `int` can hold. */
  const MAX_LENGTH := 0x7FFF_FFFF_FFFF_FFFF

  /** The longest slice that can be allocated. */
  type Memory = n: nat | n <= MAX_LENGTH

  predicate IsMask(mask: Option<Bytes>) {
    mask.Some? ==> |mask.value| == 4
  }

  // ---- numbers and masks -----------------------------------------------------------------

  /** The `k` lowest bytes of a number, the highest first. */
  function BigEndian(n: nat, k: nat): (bytes: Bytes)
    ensures |bytes| == k
  {
    if k == 0 then [] else BigEndian(n / 256, k - 1) + [(n % 256) as bv8]
  }

  function FromBigEndian(bytes: Bytes): nat {
    if bytes == [] then 0 else FromBigEndian(bytes[..|bytes| - 1]) * 256 + bytes[|bytes| - 1] as nat
  }

  function Power(k: nat): nat {
    if k == 0 then 1 else 256 * Power(k - 1)
  }

  lemma {:induction false} BigEndianRoundTrip(n: nat, k: nat)
    requires n < Power(k)
    ensures FromBigEndian(BigEndian(n, k)) == n
    decreases k
  {
    if k > 0 {
      BigEndianRoundTrip(n / 256, k - 1);
      var bytes := BigEndian(n, k);
      assert bytes[..k - 1] == BigEndian(n / 256, k - 1);
      ByteRoundTrip(n % 256);
    }
  }

  lemma ByteRoundTrip(n: nat)
    requires n < 256
    ensures (n as bv8) as nat == n
  {
    assert n % 256 == n;
  }

  function ApplyMask(payload: Bytes, mask: Option<Bytes>): (r: Bytes)
    requires IsMask(mask)
    ensures |r| == |payload|
  {
    match mask
    case None => payload
    case Some(m) => seq(|payload|, i requires 0 <= i < |payload| => payload[i] ^ m[i % 4])
  }

  /** Masking twice with the same mask changes nothing. */
  lemma MaskTwice(payload: Bytes, mask: Option<Bytes>)
    requires IsMask(mask)
    ensures ApplyMask(ApplyMask(payload, mask), mask) == payload
  {
    if mask.Some? {
      forall i | 0 <= i < |payload| ensures (payload[i] ^ mask.value[i % 4]) ^ mask.value[i % 4] == payload[i] {
      }
    }
  }

  // ---- what a frame is ----------------------------------------------------------------------

  function LengthField(length: nat, masked: bool): Bytes {
    var bit: bv8 := if masked then MASK_BIT else 0;
    if length < 126 then [bit | (length as bv8)]
    else if length <= 65535 then [bit | LENGTH_IN_TWO] + BigEndian(length, 2)
    else [bit | LENGTH_IN_EIGHT] + BigEndian(length, 8)
  }

  function MaskField(mask: Option<Bytes>): Bytes {
    if mask.Some? then mask.value else []
  }

  function FrameOf(opcode: bv8, payload: Bytes, mask: Option<Bytes>): Bytes
    requires IsMask(mask)
  {
    [FINAL_FRAME | opcode] + LengthField(|payload|, mask.Some?) + MaskField(mask) + ApplyMask(payload, mask)
  }

  // ---- what reading means ---------------------------------------------------------------------

  /** The length that starts with the seven bits of the second byte, and what follows it. */
  function ReadLength(short: bv8, input: Bytes): Option<(nat, Bytes)> {
    if short == LENGTH_IN_TWO then
      if |input| < 2 then None else Some((FromBigEndian(input[..2]), input[2..]))
    else if short == LENGTH_IN_EIGHT then
      if |input| < 8 then None else Some((FromBigEndian(input[..8]), input[8..]))
    else Some((short as nat, input))
  }

  /** Allocating more than there is memory for panics; by then the mask has been read. */
  datatype PayloadRead = Payload(payload: Bytes, rest: Bytes) | Short | TooLong(rest: Bytes)

  /** The payload of a frame and the input after it. */
  function PayloadAt(input: Bytes, masked: bool, length: nat, memory: Memory): (r: PayloadRead)
    ensures r.Payload? ==> |r.rest| <= |input|
  {
    var skip := if masked then 4 else 0;
    if |input| < skip then Short
    else if length > memory then TooLong(input[skip..])
    else if |input| < skip + length then Short
    else
      Payload(ApplyMask(input[skip..skip + length], if masked then Some(input[..4]) else None), input[skip + length..])
  }

  datatype FrameRead = Frame(opcode: bv8, payload: Bytes, rest: Bytes) | NoFrame | FrameTooLong(rest: Bytes)

  /** A frame whose first two bytes have been read. */
  function FrameAfter(first: bv8, second: bv8, input: Bytes, memory: Memory): (r: FrameRead)
    ensures r.Frame? ==> |r.rest| <= |input|
  {
    match ReadLength(second & 0x7f, input)
    case None => NoFrame
    case Some((length, rest)) =>
      match PayloadAt(rest, second & MASK_BIT != 0, length, memory)
      case Short => NoFrame
      case TooLong(after) => FrameTooLong(after)
      case Payload(payload, after) => Frame(first & 0x0f, payload, after)
  }

  function ReadFrame(input: Bytes, memory: Memory): (r: FrameRead)
    ensures r.Frame? ==> |r.rest| < |input|
  {
    if |input| < 2 then NoFrame else FrameAfter(input[0], input[1], input[2..], memory)
  }

  datatype Reading = Message(payload: Bytes) | ClosedByPeer | ShortInput | Panic

  /** The next message and the input after it; pings are skipped. */
  function ReadMessage(input: Bytes, memory: Memory): (r: (Reading, Bytes))
    ensures r.0.Message? ==> |r.1| < |input|
    decreases |input|
  {
    match ReadFrame(input, memory)
    case NoFrame => (ShortInput, [])
    case FrameTooLong(rest) => (Panic, rest)
    case Frame(opcode, payload, rest) =>
      if opcode == CLOSE then (ClosedByPeer, rest)
      else if opcode == PING then ReadMessage(rest, memory)
      else (Message(payload), rest)
  }

  // ---- a connection -----------------------------------------------------------------------------

  class Connection {
    const memory: Memory
    var unread: Bytes
    var written: Bytes

    constructor (input: Bytes, memory: Memory)
      ensures unread == input && written == [] && this.memory == memory
    {
      unread, written, this.memory := input, [], memory;
    }

    /** Reads exactly `n` bytes; when there are fewer it has used them up. */
    method ReadFull(n: nat) returns (r: Option<Bytes>)
      modifies this`unread
      ensures r == if n <= |old(unread)| then Some(old(unread)[..n]) else None
      ensures unread == if n <= |old(unread)| then old(unread)[n..] else []
    {
      if n > |unread| {
        unread := [];
        return None;
      }
      r := Some(unread[..n]);
      unread := unread[n..];
    }

    method ReadNumber(size: nat) returns (r: Option<nat>)
      modifies this`unread
      ensures r == if size <= |old(unread)| then Some(FromBigEndian(old(unread)[..size])) else None
      ensures unread == if size <= |old(unread)| then old(unread)[size..] else []
    {
      var bytes := ReadFull(size);
      if bytes == None {
        return None;
      }
      var n: nat := 0;
      for i := 0 to size
        invariant n == FromBigEndian(bytes.value[..i])
      {
        assert bytes.value[..i + 1][..i] == bytes.value[..i];
        n := n * 256 + bytes.value[i] as nat;
      }
      assert bytes.value[..size] == bytes.value;
      return Some(n);
    }

    method Write(bytes: Bytes)
      modifies this`written
      ensures written == old(written) + bytes
    {
      written := written + bytes;
    }
  }

  /** The first bytes of a masked text frame. */
  method FrameHeader(length: nat) returns (frame: Bytes)
    ensures frame == [FINAL_FRAME | TEXT] + LengthField(length, true)
  {
    frame := [0x81];
    if length < 126 {
      frame := frame + [0x80 | (length as bv8)];
    } else if length <= 65535 {
      frame := frame + ([0x80 | 126] + BigEndian(length, 2));
    } else {
      frame := frame + ([0x80 | 127] + BigEndian(length, 8));
    }
  }

  method AppendMasked(header: Bytes, payload: Bytes, mask: Bytes) returns (frame: Bytes)
    requires |mask| == 4
    ensures frame == header + ApplyMask(payload, Some(mask))
  {
    frame := header;
    ghost var masked := ApplyMask(payload, Some(mask));
    for i := 0 to |payload|
      invariant frame == header + masked[..i]
    {
      frame := frame + [payload[i] ^ mask[i % 4]];
    }
    assert masked[..|payload|] == masked;
  }

  /** Writes a payload as one masked text frame. */
  method WriteFrame(conn: Connection, payload: Bytes, mask: Bytes)
    requires |payload| <= MAX_LENGTH && |mask| == 4
    modifies conn`written
    ensures conn.written == old(conn.written) + FrameOf(TEXT, payload, Some(mask))
  {
    var header := FrameHeader(|payload|);
    var frame := AppendMasked(header + mask, payload, mask);
    conn.Write(frame);
  }

  method Unmask(payload: array<bv8>, mask: Bytes)
    requires |mask| == 4
    modifies payload
    ensures payload[..] == ApplyMask(old(payload[..]), Some(mask))
  {
    for i := 0 to payload.Length
      invariant forall k :: 0 <= k < i ==> payload[k] == old(payload[k]) ^ mask[k % 4]
      invariant forall k :: i <= k < payload.Length ==> payload[k] == old(payload[k])
    {
      payload[i] := payload[i] ^ mask[i % 4];
    }
  }

  method ReadPayload(conn: Connection, masked: bool, length: nat) returns (r: PayloadRead)
    modifies conn`unread
    ensures r == PayloadAt(old(conn.unread), masked, length, conn.memory)
    ensures conn.unread == if r.Short? then [] else r.rest
  {
    ghost var input, skip := conn.unread, if masked then 4 else 0;
    var mask: Option<Bytes> := None;
    if masked {
      mask := conn.ReadFull(4);
      if mask == None {
        return Short;
      }
    }
    assert conn.unread == input[skip..];
    if length > conn.memory {
      return TooLong(conn.unread);
    }
    var read := conn.ReadFull(length);
    if read == None {
      return Short;
    }
    assert read.value == input[skip..skip + length] && conn.unread == input[skip + length..];
    var payload := new bv8[length](i requires 0 <= i < length => read.value[i]);
    assert payload[..] == read.value;
    if masked {
      Unmask(payload, mask.value);
    }
    return Payload(payload[..], conn.unread);
  }

  method ReadLengthOf(conn: Connection, short: bv8) returns (r: Option<nat>)
    modifies conn`unread
    ensures match ReadLength(short, old(conn.unread))
      case None => r == None && conn.unread == []
      case Some((length, rest)) => r == Some(length) && conn.unread == rest
  {
    if short == LENGTH_IN_TWO {
      r := conn.ReadNumber(2);
    } else if short == LENGTH_IN_EIGHT {
      r := conn.ReadNumber(8);
    } else {
      return Some(short as nat);
    }
  }

  method ReadAfterHeader(conn: Connection, first: bv8, second: bv8) returns (r: FrameRead)
    modifies conn`unread
    ensures r == FrameAfter(first, second, old(conn.unread), conn.memory)
    ensures conn.unread == if r.NoFrame? then [] else r.rest
  {
    var length := ReadLengthOf(conn, second & 0x7f);
    if length == None {
      return NoFrame;
    }
    var read := ReadPayload(conn, second & MASK_BIT != 0, length.value);
    match read {
      case Short => return NoFrame;
      case TooLong(rest) => return FrameTooLong(rest);
      case Payload(payload, rest) => return Frame(first & 0x0f, payload, rest);
    }
  }

  method ReadOne(conn: Connection) returns (r: FrameRead)
    modifies conn`unread
    ensures r == ReadFrame(old(conn.unread), conn.memory)
    ensures conn.unread == if r.NoFrame? then [] else r.rest
  {
    var header := conn.ReadFull(2);
    if header == None {
      return NoFrame;
    }
    r := ReadAfterHeader(conn, header.value[0], header.value[1]);
  }

  /** Reads the next message, leaving the bytes after it. */
  method ReadNext(conn: Connection) returns (r: Reading)
    modifies conn`unread
    ensures (r, conn.unread) == ReadMessage(old(conn.unread), conn.memory)
    decreases |conn.unread|
  {
    var frame := ReadOne(conn);
    match frame {
      case NoFrame => return ShortInput;
      case FrameTooLong(_) => return Panic;
      case Frame(opcode, payload, _) =>
        if opcode == CLOSE {
          return ClosedByPeer;
        } else if opcode == PING {
          r := ReadNext(conn);
        } else {
          return Message(payload);
        }
    }
  }

  // ---- round trips ---------------------------------------------------------------------------------

  lemma LowSeven(x: bv8)
    requires x < 0x80
    ensures (0x80 | x) & 0x7f == x && (0 | x) & 0x7f == x && (0x80 | x) & 0x80 != 0 && (0 | x) & 0x80 == 0
  {
  }

  lemma SevenBits(n: nat, masked: bool)
    requires n < 128
    ensures var b: bv8 := (if masked then MASK_BIT else 0) | (n as bv8);
      (b & 0x7f) as nat == n && (b & 0x80 != 0 <==> masked)
  {
    var x := n as bv8;
    ByteRoundTrip(n);
    LowSeven(x);
    if masked {
      assert (0x80 | x) & 0x7f == x;
    } else {
      assert (0 | x) & 0x7f == x;
    }
  }

  /** A length field is read back, whatever follows. */
  lemma LengthRoundTrip(length: nat, masked: bool, rest: Bytes)
    requires length <= MAX_LENGTH
    ensures var field := LengthField(length, masked);
      && |field| == (if length < 126 then 1 else if length <= 65535 then 3 else 9)
      && (field[0] & MASK_BIT != 0 <==> masked)
      && ReadLength(field[0] & 0x7f, field[1..] + rest) == Some((length, rest))
  {
    var field := LengthField(length, masked);
    if length < 126 {
      SevenBits(length, masked);
      assert field[1..] + rest == rest;
    } else {
      var k := if length <= 65535 then 2 else 8;
      SevenBits(if k == 2 then 126 else 127, masked);
      assert Power(2) == 0x1_0000 && Power(8) == 0x1_0000_0000_0000_0000;
      BigEndianRoundTrip(length, k);
      assert field[1..] == BigEndian(length, k);
      assert (field[1..] + rest)[..k] == BigEndian(length, k) && (field[1..] + rest)[k..] == rest;
    }
  }

  lemma PayloadRoundTrip(payload: Bytes, mask: Option<Bytes>, rest: Bytes, memory: Memory)
    requires IsMask(mask) && |payload| <= memory
    ensures PayloadAt(MaskField(mask) + ApplyMask(payload, mask) + rest, mask.Some?, |payload|, memory)
            == Payload(payload, rest)
  {
    var masked := ApplyMask(payload, mask);
    var body := MaskField(mask) + masked + rest;
    var skip := |MaskField(mask)|;
    assert body[skip..skip + |payload|] == masked && body[skip + |payload|..] == rest;
    assert mask.Some? ==> body[..4] == mask.value;
    MaskTwice(payload, mask);
  }

  /** Reading a frame gives its payload and leaves the following bytes untouched, for any length, mask and opcode. */
  lemma FrameRoundTrip(opcode: bv8, payload: Bytes, mask: Option<Bytes>, rest: Bytes, memory: Memory)
    requires IsMask(mask) && |payload| <= memory && opcode <= 0x0f
    ensures ReadFrame(FrameOf(opcode, payload, mask) + rest, memory) == Frame(opcode, payload, rest)
  {
    var field := LengthField(|payload|, mask.Some?);
    var body := MaskField(mask) + ApplyMask(payload, mask) + rest;
    LengthRoundTrip(|payload|, mask.Some?, body);
    PayloadRoundTrip(payload, mask, rest, memory);
    LowBits(opcode);
    Regroup([FINAL_FRAME | opcode], field, MaskField(mask), ApplyMask(payload, mask), rest);
    SplitFrame(FINAL_FRAME | opcode, field, body);
    ReadParts(FrameOf(opcode, payload, mask) + rest, field[1..] + body, |payload|, body, payload, rest, memory);
  }

  lemma Regroup(first: Bytes, field: Bytes, mask: Bytes, masked: Bytes, rest: Bytes)
    ensures first + field + mask + masked + rest == first + field + (mask + masked + rest)
  {
  }

  lemma LowBits(opcode: bv8)
    requires opcode <= 0x0f
    ensures (FINAL_FRAME | opcode) & 0x0f == opcode
  {
  }

  lemma SplitFrame(first: bv8, field: Bytes, body: Bytes)
    requires field != []
    ensures var input := [first] + field + body;
      |input| >= 2 && input[0] == first && input[1] == field[0] && input[2..] == field[1..] + body
  {
  }

  /** A frame is read part by part: two bytes, the length, the payload. */
  lemma ReadParts(input: Bytes, tail: Bytes, length: nat, body: Bytes, payload: Bytes, rest: Bytes, memory: Memory)
    requires |input| >= 2 && input[2..] == tail
    requires ReadLength(input[1] & 0x7f, tail) == Some((length, body))
    requires PayloadAt(body, input[1] & MASK_BIT != 0, length, memory) == Payload(payload, rest)
    ensures ReadFrame(input, memory) == Frame(input[0] & 0x0f, payload, rest)
  {
  }

  /** What `WriteFrame` wrote, `ReadNext` reads back. */
  lemma MessageRoundTrip(payload: Bytes, mask: Bytes, rest: Bytes, memory: Memory)
    requires |payload| <= memory && |mask| == 4
    ensures ReadMessage(FrameOf(TEXT, payload, Some(mask)) + rest, memory) == (Message(payload), rest)
  {
    FrameRoundTrip(TEXT, payload, Some(mask), rest, memory);
  }

  /** A length field beyond what can be allocated panics before any of the payload is read. */
  lemma TooLongPanics(short: bv8, length: Bytes, rest: Bytes, memory: Memory)
    requires short & 0x7f == LENGTH_IN_EIGHT && short & MASK_BIT == 0
    requires |length| == 8 && FromBigEndian(length) > memory
    ensures ReadMessage([FINAL_FRAME | TEXT, short] + length + rest, memory) == (Panic, rest)
  {
    var input := [FINAL_FRAME | TEXT, short] + length + rest;
    assert input[2..][..8] == length && input[2..][8..] == rest;
  }

  // ---- streams ------------------------------------------------------------------------------------------

  datatype Sent = Text(payload: Bytes, mask: Option<Bytes>) | Ping(payload: Bytes, mask: Option<Bytes>)

  predicate Sendable(sent: Sent, memory: Memory) {
    |sent.payload| <= memory && IsMask(sent.mask)
  }

  predicate AllSendable(stream: seq<Sent>, memory: Memory) {
    forall i :: 0 <= i < |stream| ==> Sendable(stream[i], memory)
  }

  function FrameFor(sent: Sent): Bytes
    requires IsMask(sent.mask)
  {
    FrameOf(if sent.Text? then TEXT else PING, sent.payload, sent.mask)
  }

  function Encode(stream: seq<Sent>, memory: Memory): Bytes
    requires AllSendable(stream, memory)
  {
    if stream == [] then []
    else
      assert Sendable(stream[0], memory);
      FrameFor(stream[0]) + Encode(stream[1..], memory)
  }

  function Texts(stream: seq<Sent>): seq<Bytes> {
    if stream == [] then []
    else (if stream[0].Text? then [stream[0].payload] else []) + Texts(stream[1..])
  }

  /** All messages up to the end of the input or a close frame. */
  function Messages(input: Bytes, memory: Memory): seq<Bytes>
    decreases |input|
  {
    var (reading, rest) := ReadMessage(input, memory);
    if reading.Message? then [reading.payload] + Messages(rest, memory) else []
  }

  lemma FrameThenMore(input: Bytes, opcode: bv8, payload: Bytes, more: Bytes, memory: Memory)
    requires ReadFrame(input, memory) == Frame(opcode, payload, more)
    ensures opcode == TEXT ==> Messages(input, memory) == [payload] + Messages(more, memory)
    ensures opcode == PING ==> Messages(input, memory) == Messages(more, memory)
  {
  }

  lemma FirstMessage(sent: Sent, more: Bytes, memory: Memory)
    requires Sendable(sent, memory)
    ensures Messages(FrameFor(sent) + more, memory)
            == (if sent.Text? then [sent.payload] else []) + Messages(more, memory)
  {
    var opcode := if sent.Text? then TEXT else PING;
    FrameRoundTrip(opcode, sent.payload, sent.mask, more, memory);
    FrameThenMore(FrameFor(sent) + more, opcode, sent.payload, more, memory);
  }

  /** A stream of text frames with pings in between, masked or not, reads back as the texts in order. */
  lemma {:induction false} StreamRoundTrip(stream: seq<Sent>, rest: Bytes, memory: Memory)
    requires AllSendable(stream, memory)
    ensures Messages(Encode(stream, memory) + rest, memory) == Texts(stream) + Messages(rest, memory)
    decreases |stream|
  {
    if stream == [] {
      assert Encode(stream, memory) + rest == rest;
    } else {
      var more := Encode(stream[1..], memory) + rest;
      Reassociate(FrameFor(stream[0]), Encode(stream[1..], memory), rest);
      FirstMessage(stream[0], more, memory);
      StreamRoundTrip(stream[1..], rest, memory);
      Reassociate(if stream[0].Text? then [stream[0].payload] else [], Texts(stream[1..]), Messages(rest, memory));
    }
  }

  lemma Reassociate<T>(a: seq<T>, b: seq<T>, c: seq<T>)
    ensures a + b + c == a + (b + c)
  {
  }

  // ---- the layout of frames, byte by byte -------------------------------------------------------------------

  /** A number from its bytes, the highest first. */
  lemma TwoBytes(b: Bytes)
    requires |b| == 2
    ensures FromBigEndian(b) == b[0] as nat * 256 + b[1] as nat
  {
    assert b[..1][..0] == [];
    assert FromBigEndian(b[..1]) == b[0] as nat;
  }

  lemma {:induction false} MoreBytes(high: Bytes, low: Bytes)
    ensures FromBigEndian(high + low) == FromBigEndian(high) * Power(|low|) + FromBigEndian(low)
    decreases |low|
  {
    if low == [] {
      assert high + low == high;
    } else {
      var n := |low| - 1;
      assert (high + low)[..|high| + n] == high + low[..n];
      MoreBytes(high, low[..n]);
      OneMoreByte(FromBigEndian(high), Power(n), FromBigEndian(low[..n]));
    }
  }

  lemma OneMoreByte(high: nat, power: nat, low: nat)
    ensures (high * power + low) * 256 == high * (256 * power) + low * 256
  {
  }

  lemma EightBytes(b: Bytes)
    requires |b| == 8
    ensures FromBigEndian(b) == ((b[0] as nat * 256 + b[1] as nat) * 0x1_0000 + (b[2] as nat * 256 + b[3] as nat))
                                * 0x1_0000_0000
                                + (b[4] as nat * 256 + b[5] as nat) * 0x1_0000 + (b[6] as nat * 256 + b[7] as nat)
  {
    FourBytes(b[..4]);
    FourBytes(b[4..]);
    assert b == b[..4] + b[4..];
    MoreBytes(b[..4], b[4..]);
    assert Power(4) == 0x1_0000_0000;
  }

  lemma FourBytes(b: Bytes)
    requires |b| == 4
    ensures FromBigEndian(b) == (b[0] as nat * 256 + b[1] as nat) * 0x1_0000 + (b[2] as nat * 256 + b[3] as nat)
  {
    TwoBytes(b[..2]);
    TwoBytes(b[2..]);
    assert b == b[..2] + b[2..];
    MoreBytes(b[..2], b[2..]);
    assert Power(2) == 0x1_0000;
  }

  /** Length bytes that stand behind a second byte whose low seven bits are `short`. */
  ghost predicate LengthBytes(short: bv8, bytes: Bytes, length: nat) {
    if short == 126 then |bytes| == 2 && length == bytes[0] as nat * 256 + bytes[1] as nat
    else if short == 127 then
      && |bytes| == 8
      && length == ((bytes[0] as nat * 256 + bytes[1] as nat) * 0x1_0000 + (bytes[2] as nat * 256 + bytes[3] as nat))
                   * 0x1_0000_0000
                   + (bytes[4] as nat * 256 + bytes[5] as nat) * 0x1_0000 + (bytes[6] as nat * 256 + bytes[7] as nat)
    else bytes == [] && length == short as nat
  }

  /** Each byte of the payload is sent under the mask's byte of its place, or as it is. */
  ghost predicate SentAs(payload: Bytes, mask: Bytes, sent: Bytes) {
    && |sent| == |payload|
    && if mask == [] then sent == payload
       else |mask| == 4 && forall i :: 0 <= i < |payload| ==> sent[i] == payload[i] ^ mask[i % 4]
  }

  /**
   A frame as RFC 6455 lays it out: the first byte holds the flags and, in its low half, the
   opcode; the second the mask bit and the length, or that the length follows in two or eight
   bytes; then come the mask, if any, and the payload.
   */
  ghost predicate IsFrame(frame: Bytes, first: bv8, second: bv8, length: Bytes, mask: Bytes, payload: Bytes) {
    && LengthBytes(second & 0x7f, length, |payload|)
    && (second & 0x80 != 0 <==> |mask| == 4) && (second & 0x80 == 0 <==> mask == [])
    && exists sent :: SentAs(payload, mask, sent) && frame == [first, second] + length + mask + sent
  }

  lemma LengthIs(short: bv8, bytes: Bytes, length: nat, rest: Bytes)
    requires LengthBytes(short, bytes, length)
    ensures ReadLength(short, bytes + rest) == Some((length, rest))
  {
    if short == 126 {
      TwoBytes(bytes);
      assert (bytes + rest)[..2] == bytes && (bytes + rest)[2..] == rest;
    } else if short == 127 {
      EightBytes(bytes);
      assert (bytes + rest)[..8] == bytes && (bytes + rest)[8..] == rest;
    } else {
      assert bytes + rest == rest;
    }
  }

  lemma SentIs(payload: Bytes, mask: Bytes, sent: Bytes)
    requires SentAs(payload, mask, sent)
    ensures sent == ApplyMask(payload, if mask == [] then None else Some(mask))
  {
  }

  /** Any frame is read, whatever its flags, opcode and mask, and even with a longer length field than it needs. */
  lemma AnyFrameIsRead(frame: Bytes, first: bv8, second: bv8, length: Bytes, mask: Bytes, payload: Bytes, rest: Bytes,
          memory: Memory)
    requires IsFrame(frame, first, second, length, mask, payload) && |payload| <= memory
    ensures ReadFrame(frame + rest, memory) == Frame(first & 0x0f, payload, rest)
  {
    var sent :| SentAs(payload, mask, sent) && frame == [first, second] + length + mask + sent;
    var body := mask + sent + rest;
    SentIs(payload, mask, sent);
    PartsOfFrame(frame + rest, first, second, length, mask, sent, rest);
    LengthIs(second & 0x7f, length, |payload|, body);
    PayloadRoundTrip(payload, if mask == [] then None else Some(mask), rest, memory);
    ReadParts(frame + rest, length + body, |payload|, body, payload, rest, memory);
  }

  lemma PartsOfFrame(input: Bytes, first: bv8, second: bv8, length: Bytes, mask: Bytes, sent: Bytes, rest: Bytes)
    requires input == [first, second] + length + mask + sent + rest
    ensures |input| >= 2 && input[0] == first && input[1] == second && input[2..] == length + (mask + sent + rest)
  {
    var front := [first, second];
    assert input == front + (length + (mask + sent + rest));
  }

  /** A frame that is cut off anywhere is no frame. */
  lemma CutFrameIsShort(frame: Bytes, first: bv8, second: bv8, length: Bytes, mask: Bytes, payload: Bytes, k: nat,
          memory: Memory)
    requires IsFrame(frame, first, second, length, mask, payload) && |payload| <= memory && k < |frame|
    ensures ReadMessage(frame[..k], memory) == (ShortInput, [])
  {
    if k >= 2 {
      var sent :| SentAs(payload, mask, sent) && frame == [first, second] + length + mask + sent;
      assert frame == [first, second] + length + (mask + sent);
      CutParts([first, second], length, mask + sent, frame, k);
      CutTail(first, second, length, |payload|, frame[..k][2..], memory);
    }
  }

  lemma CutTail(first: bv8, second: bv8, length: Bytes, size: nat, tail: Bytes, memory: Memory)
    requires LengthBytes(second & 0x7f, length, size) && size <= memory
    requires |tail| >= |length| ==> tail == length + tail[|length|..]
    requires |tail| < |length| + (if second & 0x80 != 0 then 4 else 0) + size
    ensures FrameAfter(first, second, tail, memory) == NoFrame
  {
    if |tail| < |length| {
      LengthIsShort(second & 0x7f, length, size, tail);
    } else {
      LengthIs(second & 0x7f, length, size, tail[|length|..]);
      PayloadIsShort(second & 0x80 != 0, size, tail[|length|..], memory);
    }
  }

  lemma CutParts(header: Bytes, length: Bytes, body: Bytes, frame: Bytes, k: nat)
    requires |header| == 2 <= k < |frame| && frame == header + length + body
    ensures frame[..k][0] == header[0] && frame[..k][1] == header[1] && |frame[..k][2..]| == k - 2
    ensures k - 2 >= |length| ==>
              frame[..k][2..] == length + frame[..k][2..][|length|..] && |frame[..k][2..][|length|..]| < |body|
  {
    if k - 2 >= |length| {
      assert frame[..k][2..][..|length|] == length;
    }
  }

  lemma PayloadIsShort(masked: bool, length: nat, input: Bytes, memory: Memory)
    requires length <= memory && |input| < (if masked then 4 else 0) + length
    ensures PayloadAt(input, masked, length, memory) == Short
  {
  }

  lemma LengthIsShort(short: bv8, bytes: Bytes, length: nat, input: Bytes)
    requires LengthBytes(short, bytes, length) && |input| < |bytes|
    ensures ReadLength(short, input) == None
  {
  }

  /** A close frame ends the connection, a ping is skipped, everything else is a message. */
  lemma AnyFrameMeans(frame: Bytes, first: bv8, second: bv8, length: Bytes, mask: Bytes, payload: Bytes, rest: Bytes,
          memory: Memory)
    requires IsFrame(frame, first, second, length, mask, payload) && |payload| <= memory
    ensures ReadMessage(frame + rest, memory)
            == if first & 0x0f == 0x8 then (ClosedByPeer, rest)
               else if first & 0x0f == 0x9 then ReadMessage(rest, memory)
               else (Message(payload), rest)
  {
    AnyFrameIsRead(frame, first, second, length, mask, payload, rest, memory);
  }

  /** What is written is laid out so: final, a text, masked, with the shortest of the three lengths. */
  lemma WrittenLayout(payload: Bytes, mask: Bytes)
    requires |payload| <= MAX_LENGTH && |mask| == 4
    ensures var frame, n := FrameOf(TEXT, payload, Some(mask)), |payload|;
      && (n < 126 ==> IsFrame(frame, 0x81, 0x80 | (n as bv8), [], mask, payload))
      && (126 <= n <= 65535 ==> |frame| > 4 && IsFrame(frame, 0x81, 0xFE, frame[2..4], mask, payload))
      && (n > 65535 ==> |frame| > 10 && IsFrame(frame, 0x81, 0xFF, frame[2..10], mask, payload))
  {
    if |payload| < 126 {
      ShortLayout(payload, mask);
    } else {
      LongLayout(payload, mask, if |payload| <= 65535 then 2 else 8);
    }
  }

  lemma ShortLayout(payload: Bytes, mask: Bytes)
    requires |payload| < 126 && |mask| == 4
    ensures IsFrame(FrameOf(TEXT, payload, Some(mask)), 0x81, 0x80 | (|payload| as bv8), [], mask, payload)
  {
    var sent, second := ApplyMask(payload, Some(mask)), 0x80 | (|payload| as bv8);
    SevenBits(|payload|, true);
    assert SentAs(payload, mask, sent);
    assert FrameOf(TEXT, payload, Some(mask)) == [0x81, second] + [] + mask + sent;
  }

  lemma LongLayout(payload: Bytes, mask: Bytes, k: nat)
    requires 126 <= |payload| <= MAX_LENGTH && |mask| == 4 && k == if |payload| <= 65535 then 2 else 8
    ensures var frame := FrameOf(TEXT, payload, Some(mask));
      |frame| > 2 + k && IsFrame(frame, 0x81, if k == 2 then 0xFE else 0xFF, frame[2..2 + k], mask, payload)
  {
    var sent, frame := ApplyMask(payload, Some(mask)), FrameOf(TEXT, payload, Some(mask));
    var second: bv8, length := if k == 2 then 0xFE else 0xFF, BigEndian(|payload|, k);
    assert SentAs(payload, mask, sent);
    FrameInParts(frame, second, length, mask, sent);
    LengthWritten(|payload|, k);
  }

  lemma FrameInParts(frame: Bytes, second: bv8, length: Bytes, mask: Bytes, sent: Bytes)
    requires frame == [0x81] + ([second] + length) + mask + sent && |mask| == 4
    ensures |frame| > 2 + |length| && frame[2..2 + |length|] == length
    ensures frame == [0x81, second] + length + mask + sent
  {
    assert [0x81] + ([second] + length) == [0x81, second] + length;
  }

  lemma LengthWritten(n: nat, k: nat)
    requires 126 <= n <= MAX_LENGTH && k == if n <= 65535 then 2 else 8
    ensures LengthBytes(if k == 2 then 126 else 127, BigEndian(n, k), n)
  {
    assert Power(2) == 0x1_0000 && Power(8) == 0x1_0000_0000_0000_0000;
    BigEndianRoundTrip(n, k);
    if k == 2 {
      TwoBytes(BigEndian(n, k));
    } else {
      EightBytes(BigEndian(n, k));
    }
  }

  // ---- minimal length ---------------------------------------------------------------------------------------

  lemma {:induction false} FewBytesSmallNumber(bytes: Bytes)
    ensures FromBigEndian(bytes) < Power(|bytes|)
  {
    if bytes != [] {
      FewBytesSmallNumber(bytes[..|bytes| - 1]);
    }
  }

  /** No masked frame that reads back as the payload is shorter than the one written. */
  lemma WrittenFrameIsShortest(payload: Bytes, mask: Bytes, frame: Bytes, memory: Memory)
    requires |payload| <= memory && |mask| == 4
    requires |frame| >= 2 && frame[1] & MASK_BIT != 0
    requires ReadFrame(frame, memory).Frame? && ReadFrame(frame, memory).payload == payload
    requires ReadFrame(frame, memory).rest == []
    ensures |FrameOf(TEXT, payload, Some(mask))| <= |frame|
  {
    LengthRoundTrip(|payload|, true, []);
    var short := frame[1] & 0x7f;
    assert short <= 127;
    if short == LENGTH_IN_TWO {
      FewBytesSmallNumber(frame[2..][..2]);
      assert Power(2) == 0x1_0000;
    }
  }
}
