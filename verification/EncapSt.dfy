/**
 The streaming telemetry framing: a fixed header in front of every payload
 (encap_st.go), read from a stream of bytes (xport_tcp.go) or one datagram at a time.
 */
module EncapSt {
  import opened Common

  const MAX_DGRAM := 64 * 1024
  const MAX_PAYLOAD := 1024 * 1024
  const FLAGS_NONE := 0
  const HDR_SIZE := 12
  const HDR_VERSION := 1
  const TELEMETRY_DATA := 1
  const ENCAP_GPB := 1
  const ENCAP_JSON := 2
  const ENCAP_GPB_COMPACT := 3
  const ENCAP_GPB_KV := 4

  type uint16 = x: int | 0 <= x < 0x1_0000
  type uint32 = x: int | 0 <= x < 0x1_0000_0000

  datatype Encoding = GpbCompact | GpbKv | Json | JsonEvents | Gpb | Template

  datatype Header = Header(msgType: uint16, msgEncap: uint16, version: uint16, flag: uint16, len: uint32)

  // ---------------------------------------------------------------------------
  // Header layout

  function Be16(n: uint16): seq<byte> {
    [n / 0x100, n % 0x100]
  }

  function Be32(n: uint32): seq<byte> {
    [n / 0x100_0000, n / 0x1_0000 % 0x100, n / 0x100 % 0x100, n % 0x100]
  }

  function Read16(s: seq<byte>, i: nat): uint16
    requires i + 2 <= |s|
  {
    s[i] as int * 0x100 + s[i + 1]
  }

  function Read32(s: seq<byte>, i: nat): uint32
    requires i + 4 <= |s|
  {
    s[i] as int * 0x100_0000 + s[i + 1] as int * 0x1_0000 + s[i + 2] as int * 0x100 + s[i + 3]
  }

  function HeaderByte(h: Header, j: nat): byte
    requires j < HDR_SIZE
  {
    if j < 2 then Be16(h.msgType)[j]
    else if j < 4 then Be16(h.msgEncap)[j - 2]
    else if j < 6 then Be16(h.version)[j - 4]
    else if j < 8 then Be16(h.flag)[j - 6]
    else Be32(h.len)[j - 8]
  }

  function WriteHeader(h: Header): seq<byte> {
    seq(HDR_SIZE, j requires 0 <= j < HDR_SIZE => HeaderByte(h, j))
  }

  function ReadHeader(s: seq<byte>, i: nat): Header
    requires i + HDR_SIZE <= |s|
  {
    Header(Read16(s, i), Read16(s, i + 2), Read16(s, i + 4), Read16(s, i + 6), Read32(s, i + 8))
  }

  lemma ReadBack16(n: uint16, s: seq<byte>, i: nat)
    requires i + 2 <= |s| && s[i] == Be16(n)[0] && s[i + 1] == Be16(n)[1]
    ensures Read16(s, i) == n
  {
  }

  lemma ReadBack32(n: uint32, s: seq<byte>, i: nat)
    requires i + 4 <= |s| && s[i] == Be32(n)[0] && s[i + 1] == Be32(n)[1] && s[i + 2] == Be32(n)[2] && s[i + 3] == Be32(n)[3]
    ensures Read32(s, i) == n
  {
    var q := n / 0x1_0000;
    assert n / 0x100_0000 == q / 0x100 && n / 0x100 == q * 0x100 + n % 0x1_0000 / 0x100;
    assert n % 0x1_0000 == n % 0x1_0000 / 0x100 * 0x100 + n % 0x100;
  }

  /** A header written anywhere in a stream is read back from there. */
  lemma HeaderReadBack(h: Header, s: seq<byte>, i: nat)
    requires i + HDR_SIZE <= |s| && s[i..i + HDR_SIZE] == WriteHeader(h)
    ensures ReadHeader(s, i) == h
  {
    assert forall j | 0 <= j < HDR_SIZE :: s[i + j] == s[i..i + HDR_SIZE][j] == HeaderByte(h, j);
    ReadBack16(h.msgType, s, i);
    ReadBack16(h.msgEncap, s, i + 2);
    ReadBack16(h.version, s, i + 4);
    ReadBack16(h.flag, s, i + 6);
    ReadBack32(h.len, s, i + 8);
  }

  lemma WrittenBack16(s: seq<byte>, i: nat)
    requires i + 2 <= |s|
    ensures Be16(Read16(s, i)) == [s[i], s[i + 1]]
  {
  }

  lemma WrittenBack32(s: seq<byte>, i: nat)
    requires i + 4 <= |s|
    ensures Be32(Read32(s, i)) == [s[i], s[i + 1], s[i + 2], s[i + 3]]
  {
    var a: int, b: int, c: int, d: int := s[i], s[i + 1], s[i + 2], s[i + 3];
    var n := Read32(s, i);
    assert n == 0x100 * (0x1_0000 * a + 0x100 * b + c) + d;
    assert n / 0x100 == 0x1_0000 * a + 0x100 * b + c;
    assert n / 0x1_0000 == n / 0x100 / 0x100 == 0x100 * a + b;
    assert n / 0x100_0000 == n / 0x1_0000 / 0x100 == a;
  }

  /** Every twelve bytes are the header they are read as. */
  lemma HeaderWrittenBack(s: seq<byte>, i: nat)
    requires i + HDR_SIZE <= |s|
    ensures WriteHeader(ReadHeader(s, i)) == s[i..i + HDR_SIZE]
  {
    WrittenBack16(s, i);
    WrittenBack16(s, i + 2);
    WrittenBack16(s, i + 4);
    WrittenBack16(s, i + 6);
    WrittenBack32(s, i + 8);
    forall j | 0 <= j < HDR_SIZE ensures s[i..i + HDR_SIZE][j] == HeaderByte(ReadHeader(s, i), j) {
    }
  }

  // ---------------------------------------------------------------------------
  // Codecs

  /** What the protocol buffer library makes of a payload: whether it parses, and what a legacy payload becomes. */
  datatype Codecs = Codecs(gpb: seq<byte> -> bool, compact: seq<byte> -> Option<seq<byte>>)

  /** A message as the rest of the pipeline sees it: its native encoding and its bytes. */
  datatype DataMsg = DataMsg(enc: Encoding, original: seq<byte>)

  function CodecFor(msgEncap: uint16): Option<Encoding> {
    if msgEncap == ENCAP_GPB then Some(Gpb)
    else if msgEncap == ENCAP_GPB_COMPACT then Some(GpbCompact)
    else if msgEncap == ENCAP_GPB_KV then Some(GpbKv)
    else if msgEncap == ENCAP_JSON then Some(Json)
    else None
  }

  /** blockToDataMsgs: one message, or an error.  The codec set up for legacy key/value payloads refuses all of them. */
  function Decode(c: Codecs, enc: Encoding, block: seq<byte>): Option<DataMsg> {
    match enc
    case Json => Some(DataMsg(Json, block))
    case Gpb => if c.gpb(block) then Some(DataMsg(Gpb, block)) else None
    case GpbCompact => if c.compact(block).Some? then Some(DataMsg(Gpb, c.compact(block).value)) else None
    case _ => None
  }

  predicate Acceptable(h: Header) {
    CodecFor(h.msgEncap).Some? && h.len <= MAX_PAYLOAD && h.flag == FLAGS_NONE
  }

  // ---------------------------------------------------------------------------
  // A stream of frames

  /**
   How reading ends: no byte left where a block should start, some bytes of a block
   missing, a header the parser refuses, a header that announces an empty payload, or
   a payload the codec refuses.
   */
  datatype End = Eof | Short | BadHeader | EmptyBlock | BadPayload

  datatype Run = Run(msgs: seq<DataMsg>, end: End)

  /** What the parser waits for next: the header at `i`, or `len` bytes of payload at `i`. */
  datatype Wait = ForHdr(i: nat) | ForData(i: nat, enc: Encoding, len: nat)

  function Missing(s: seq<byte>, i: nat): End {
    if i >= |s| then Eof else Short
  }

  datatype Step = Ends(end: End) | Moves(w: Wait) | Yields(m: DataMsg, w: Wait)

  /** The next block of a stream: where it leads, and the message it completes. */
  function StepAt(c: Codecs, s: seq<byte>, w: Wait): (r: Step)
    ensures !r.Ends? ==> w.i < r.w.i <= |s|
  {
    match w
    case ForHdr(i) =>
      if i + HDR_SIZE > |s| then Ends(Missing(s, i))
      else
        var h := ReadHeader(s, i);
        if Acceptable(h) then Moves(ForData(i + HDR_SIZE, CodecFor(h.msgEncap).value, h.len)) else Ends(BadHeader)
    case ForData(i, enc, len) =>
      if len == 0 then Ends(EmptyBlock)
      else if i + len > |s| then Ends(Missing(s, i))
      else
        var m := Decode(c, enc, s[i..i + len]);
        if m.Some? then Yields(m.value, ForHdr(i + len)) else Ends(BadPayload)
  }

  /** The messages of a stream from `w` on, and how it ends. */
  function Frames(c: Codecs, s: seq<byte>, w: Wait): Run
    decreases |s| - w.i
  {
    match StepAt(c, s, w)
    case Ends(end) => Run([], end)
    case Moves(w') => Frames(c, s, w')
    case Yields(m, w') => var rest := Frames(c, s, w'); Run([m] + rest.msgs, rest.end)
  }

  // ---------------------------------------------------------------------------
  // One datagram

  /** A datagram is a header and a payload; what follows the announced length stays part of the payload. */
  function Datagram(c: Codecs, block: seq<byte>): Option<DataMsg> {
    if |block| < HDR_SIZE then None
    else
      var h := ReadHeader(block, 0);
      if CodecFor(h.msgEncap).None? || h.len > |block| - HDR_SIZE || h.flag != FLAGS_NONE then None
      else Decode(c, CodecFor(h.msgEncap).value, block[HDR_SIZE..])
  }

  /** A datagram that holds exactly one frame carries the message the same bytes carry as a stream. */
  lemma DatagramIsStream(c: Codecs, block: seq<byte>)
    requires HDR_SIZE < |block| <= HDR_SIZE + MAX_PAYLOAD && ReadHeader(block, 0).len == |block| - HDR_SIZE
    ensures Datagram(c, block).Some? <==> Frames(c, block, ForHdr(0)).end == Eof
    ensures Frames(c, block, ForHdr(0)).msgs == if Datagram(c, block).Some? then [Datagram(c, block).value] else []
  {
    var h := ReadHeader(block, 0);
    assert block[HDR_SIZE..] == block[HDR_SIZE..HDR_SIZE + h.len];
    if Acceptable(h) {
      var w := ForData(HDR_SIZE, CodecFor(h.msgEncap).value, h.len);
      assert StepAt(c, block, ForHdr(0)) == Moves(w);
      assert Frames(c, block, ForHdr(HDR_SIZE + h.len)) == Run([], Eof);
    }
  }

  /** Other datagrams deliver more than they announce: the payload has the announced length exactly when nothing follows it. */
  lemma DatagramPayload(c: Codecs, block: seq<byte>)
    requires Datagram(c, block).Some? && CodecFor(ReadHeader(block, 0).msgEncap) != Some(GpbCompact)
    ensures var len := ReadHeader(block, 0).len;
            len <= |block| - HDR_SIZE &&
            (Datagram(c, block).value.original == block[HDR_SIZE..HDR_SIZE + len] <==> len == |block| - HDR_SIZE)
  {
    var len := ReadHeader(block, 0).len;
    assert |block[HDR_SIZE..]| == |block| - HDR_SIZE && |block[HDR_SIZE..HDR_SIZE + len]| == len;
  }

  // ---------------------------------------------------------------------------
  // The parser

  datatype ParseState = WaitForHdr | WaitForData | WaitForAll

  /** A delivered message refers to part of a buffer; it does not own the bytes. */
  datatype Delivered = Delivered(enc: Encoding, buf: array<byte>, from: nat, to: nat)

  ghost predicate InBuffer(d: Delivered) {
    d.from <= d.to <= d.buf.Length
  }

  ghost function Seen(d: Delivered): DataMsg
    requires InBuffer(d)
    reads d.buf
  {
    DataMsg(d.enc, d.buf[d.from..d.to])
  }

  datatype Outcome = Failed | Nothing | Message(msg: Delivered)

  method CopyOf(s: seq<byte>) returns (a: array<byte>)
    ensures fresh(a) && a[..] == s
  {
    a := new byte[|s|](i requires 0 <= i < |s| => s[i]);
  }

  /** blockToDataMsgs on bytes of a buffer: the message keeps referring to them, unless a legacy payload is rewritten. */
  method BlockToDataMsgs(c: Codecs, enc: Encoding, buf: array<byte>, from: nat, to: nat) returns (r: Outcome)
    requires from <= to <= buf.Length
    ensures !r.Nothing? && (r.Failed? <==> Decode(c, enc, buf[from..to]).None?)
    ensures r.Message? ==> (r.msg.buf == buf || fresh(r.msg.buf)) && InBuffer(r.msg) &&
                           Decode(c, enc, buf[from..to]) == Some(Seen(r.msg))
  {
    r := Failed;
    match enc {
      case Json =>
        r := Message(Delivered(Json, buf, from, to));
      case Gpb =>
        if c.gpb(buf[from..to]) {
          r := Message(Delivered(Gpb, buf, from, to));
        }
      case GpbCompact =>
        var content := c.compact(buf[from..to]);
        if content.Some? {
          var a := CopyOf(content.value);
          assert a[0..a.Length] == a[..];
          r := Message(Delivered(Gpb, a, 0, a.Length));
        }
      case _ =>
    }
  }

  class Parser {
    const hdr: array<byte>
    var state: ParseState
    var nextBlockSize: nat
    var nextCodec: Option<Encoding>
    var cachedMsgEncap: uint16

    /** The cached codec is the one for the cached encapsulation, and is there whenever a payload is awaited. */
    ghost predicate Valid()
      reads this
    {
      && hdr.Length == HDR_SIZE
      && (nextCodec.Some? ==> CodecFor(cachedMsgEncap) == nextCodec)
      && (state.WaitForData? ==> nextCodec.Some? && nextBlockSize <= MAX_PAYLOAD)
    }

    /** What a parser that has consumed `i` bytes of a stream waits for. */
    ghost predicate Waits(w: Wait)
      reads this
    {
      match w
      case ForHdr(i) => state.WaitForHdr?
      case ForData(i, enc, len) => state.WaitForData? && nextCodec == Some(enc) && nextBlockSize == len
    }

    constructor (datagrams: bool)
      ensures Valid() && fresh(hdr) && state == if datagrams then WaitForAll else WaitForHdr
    {
      hdr := new byte[HDR_SIZE](_ => 0);
      state := if datagrams then WaitForAll else WaitForHdr;
      nextBlockSize, nextCodec, cachedMsgEncap := 0, None, 0;
    }

    /** The header goes to the parser's own buffer, every payload to a new one. */
    method NextBlockBuffer() returns (r: Option<array<byte>>)
      requires Valid()
      ensures r.None? <==> state.WaitForData? && nextBlockSize == 0
      ensures r.Some? ==> match state
                          case WaitForHdr => r.value == hdr
                          case WaitForData => fresh(r.value) && r.value.Length == nextBlockSize
                          case WaitForAll => fresh(r.value) && r.value.Length == MAX_DGRAM
    {
      match state {
        case WaitForData =>
          if nextBlockSize == 0 || nextBlockSize > MAX_PAYLOAD {
            return None;
          }
          var buffer := new byte[nextBlockSize](_ => 0);
          r := Some(buffer);
        case WaitForHdr =>
          r := Some(hdr);
        case WaitForAll =>
          var buffer := new byte[MAX_DGRAM](_ => 0);
          r := Some(buffer);
      }
    }

    /** An encapsulation without a codec is refused and leaves the cache as it was. */
    method CacheCodec(msgEncap: uint16) returns (ok: bool)
      requires Valid() && !state.WaitForData?
      modifies `nextCodec, `cachedMsgEncap
      ensures Valid()
      ensures ok <==> CodecFor(msgEncap).Some?
      ensures ok ==> nextCodec == CodecFor(msgEncap) && cachedMsgEncap == msgEncap
      ensures !ok ==> nextCodec == old(nextCodec) && cachedMsgEncap == old(cachedMsgEncap)
    {
      if nextCodec.None? || msgEncap != cachedMsgEncap {
        var codec := CodecFor(msgEncap);
        if codec.None? {
          return false;
        }
        nextCodec, cachedMsgEncap := codec, msgEncap;
      }
      ok := true;
    }

    method NextHeader(block: array<byte>) returns (r: Outcome)
      requires Valid() && state.WaitForHdr? && block.Length >= HDR_SIZE
      modifies this
      ensures Valid()
      ensures r == if Acceptable(ReadHeader(block[..], 0)) then Nothing else Failed
      ensures r.Nothing? ==> var h := ReadHeader(block[..], 0);
                             state.WaitForData? && nextBlockSize == h.len && nextCodec == CodecFor(h.msgEncap)
      ensures r.Failed? ==> state.WaitForHdr?
    {
      var h := ReadHeader(block[..], 0);
      var ok := CacheCodec(h.msgEncap);
      if !ok || h.len > MAX_PAYLOAD || h.flag != FLAGS_NONE {
        return Failed;
      }
      nextBlockSize := h.len;
      state := WaitForData;
      r := Nothing;
    }

    method NextPayload(c: Codecs, block: array<byte>) returns (r: Outcome)
      requires Valid() && state.WaitForData?
      modifies this
      ensures Valid() && state.WaitForHdr?
      ensures !r.Nothing? && (r.Failed? <==> Decode(c, old(nextCodec.value), block[..]).None?)
      ensures r.Message? ==> (r.msg.buf == block || fresh(r.msg.buf)) && InBuffer(r.msg) &&
                             Decode(c, old(nextCodec.value), block[..]) == Some(Seen(r.msg))
    {
      nextBlockSize := 0;
      state := WaitForHdr;
      assert block[0..block.Length] == block[..];
      r := BlockToDataMsgs(c, nextCodec.value, block, 0, block.Length);
    }

    /** Whatever came before, a datagram is judged by its own bytes. */
    method NextDatagram(c: Codecs, block: array<byte>, length: nat) returns (r: Outcome)
      requires Valid() && state.WaitForAll? && length <= block.Length
      modifies this
      ensures Valid() && state.WaitForAll?
      ensures !r.Nothing? && (r.Failed? <==> Datagram(c, block[..length]).None?)
      ensures r.Message? ==> (r.msg.buf == block || fresh(r.msg.buf)) && InBuffer(r.msg) &&
                             Datagram(c, block[..length]) == Some(Seen(r.msg))
    {
      if length < HDR_SIZE {
        return Failed;
      }
      var h := ReadHeader(block[..length], 0);
      var ok := CacheCodec(h.msgEncap);
      if !ok || h.len > length - HDR_SIZE || h.flag != FLAGS_NONE {
        return Failed;
      }
      assert block[..length][HDR_SIZE..] == block[HDR_SIZE..length];
      r := BlockToDataMsgs(c, nextCodec.value, block, HDR_SIZE, length);
    }

    /** nextBlock for a connection: a header or a payload, whichever the parser asked for. */
    method NextBlock(c: Codecs, block: array<byte>, ghost s: seq<byte>, ghost w: Wait) returns (r: Outcome, ghost w': Wait)
      requires Valid() && Waits(w) && w.i + block.Length <= |s| && block[..] == s[w.i..w.i + block.Length]
      requires if w.ForHdr? then block.Length == HDR_SIZE else block.Length == w.len > 0
      modifies this
      ensures Valid() && (r.Failed? || Waits(w')) && w'.i == w.i + block.Length
      ensures r.Failed? ==> StepAt(c, s, w) == Ends(if w.ForHdr? then BadHeader else BadPayload)
      ensures r.Nothing? ==> StepAt(c, s, w) == Moves(w')
      ensures r.Message? ==> w.ForData? && (r.msg.buf == block || fresh(r.msg.buf)) && InBuffer(r.msg) &&
                             StepAt(c, s, w) == Yields(Seen(r.msg), w')
    {
      if state.WaitForData? {
        r := NextPayload(c, block);
        w' := ForHdr(w.i + block.Length);
      } else {
        assert ReadHeader(block[..], 0) == ReadHeader(s, w.i);
        r := NextHeader(block);
        ghost var h := ReadHeader(s, w.i);
        w' := if r.Nothing? then ForData(w.i + HDR_SIZE, CodecFor(h.msgEncap).value, h.len) else ForHdr(w.i + HDR_SIZE);
      }
    }
  }

  // ---------------------------------------------------------------------------
  // A connection

  datatype ReadResult = FullRead | EofRead | ShortRead

  /** io.ReadFull: fill the buffer, or tell an end before the first byte from one after it. */
  method ReadFull(buffer: array<byte>, s: seq<byte>, pos: nat) returns (r: ReadResult)
    requires pos <= |s|
    modifies buffer
    ensures r == if pos + buffer.Length <= |s| then FullRead else if pos == |s| then EofRead else ShortRead
    ensures r.FullRead? ==> buffer[..] == s[pos..pos + buffer.Length]
  {
    for i := 0 to buffer.Length
      invariant pos + i <= |s|
      invariant forall j | 0 <= j < i :: buffer[j] == s[pos + j]
    {
      if pos + i == |s| {
        return if i == 0 then EofRead else ShortRead;
      }
      buffer[i] := s[pos + i];
    }
    r := FullRead;
  }

  /** What one turn of a reading loop does: it is over, or it goes on, with a message or without. */
  datatype Turn = Over(end: End) | Went | Got(msg: Delivered)

  /** One turn: fetch the buffer the parser wants, fill it, hand it to the parser. */
  method TakeTurn(c: Codecs, parser: Parser, s: seq<byte>, pos: nat, ghost w: Wait) returns (r: Turn, next: nat, ghost w': Wait)
    requires parser.Valid() && parser.Waits(w) && w.i == pos <= |s|
    modifies parser, parser.hdr
    ensures parser.Valid() && pos <= next <= |s|
    ensures r.Over? ==> StepAt(c, s, w) == Ends(r.end)
    ensures !r.Over? ==> parser.Waits(w') && w'.i == next > pos
    ensures r.Went? ==> StepAt(c, s, w) == Moves(w')
    ensures r.Got? ==> fresh(r.msg.buf) && InBuffer(r.msg) && StepAt(c, s, w) == Yields(Seen(r.msg), w')
  {
    next, w' := pos, w;
    var buffer := parser.NextBlockBuffer();
    if buffer.None? {
      return Over(EmptyBlock), next, w';
    }
    var read := ReadFull(buffer.value, s, pos);
    if !read.FullRead? {
      return Over(if read.EofRead? then Eof else Short), next, w';
    }
    var o;
    o, w' := parser.NextBlock(c, buffer.value, s, w);
    if o.Failed? {
      return Over(if buffer.value == parser.hdr then BadHeader else BadPayload), next, w';
    }
    next := pos + buffer.value.Length;
    r := if o.Message? then Got(o.msg) else Went;
  }

  /** Messages delivered so far still read as they did when they were delivered, and none refers to the header buffer. */
  ghost predicate Intact(out: seq<Delivered>, msgs: seq<DataMsg>, hdr: array<byte>)
    reads set d | d in out :: d.buf
  {
    && |out| == |msgs|
    && forall k | 0 <= k < |out| :: out[k].buf != hdr && InBuffer(out[k]) && Seen(out[k]) == msgs[k]
  }

  /** `all` is what has been seen and what is still to come from `w` on. */
  ghost predicate Left(all: Run, seen: seq<DataMsg>, c: Codecs, s: seq<byte>, w: Wait) {
    forall now :: LeftHere(all, seen, c, s, w, now)
  }

  ghost predicate LeftHere(all: Run, seen: seq<DataMsg>, c: Codecs, s: seq<byte>, w: Wait, now: bool) {
    now ==> var rest := Frames(c, s, w); all == Run(seen + rest.msgs, rest.end)
  }

  lemma LeftAtStart(c: Codecs, s: seq<byte>)
    ensures Left(Frames(c, s, ForHdr(0)), [], c, s, ForHdr(0))
  {
    var all := Frames(c, s, ForHdr(0));
    assert [] + all.msgs == all.msgs;
    assert forall now :: LeftHere(all, [], c, s, ForHdr(0), now);
  }

  lemma LeftAfter(all: Run, seen: seq<DataMsg>, c: Codecs, s: seq<byte>, w: Wait, w': Wait, got: seq<DataMsg>)
    requires Left(all, seen, c, s, w)
    requires var rest := Frames(c, s, w'); Frames(c, s, w) == Run(got + rest.msgs, rest.end)
    ensures Left(all, seen + got, c, s, w')
  {
    assert LeftHere(all, seen, c, s, w, true);
    Assoc(seen, got, Frames(c, s, w').msgs);
    assert forall now :: LeftHere(all, seen + got, c, s, w', now);
  }

  lemma LeftAtEnd(all: Run, seen: seq<DataMsg>, c: Codecs, s: seq<byte>, w: Wait, end: End)
    requires Left(all, seen, c, s, w) && Frames(c, s, w) == Run([], end)
    ensures all == Run(seen, end)
  {
    assert LeftHere(all, seen, c, s, w, true);
  }

  /** A turn of a connection's loop, with what has been seen and what is left. */
  method ConnectionTurn(c: Codecs, parser: Parser, s: seq<byte>, pos: nat, ghost w: Wait, ghost all: Run, ghost seen: seq<DataMsg>)
    returns (r: Turn, next: nat, ghost w': Wait, ghost got: seq<DataMsg>)
    requires parser.Valid() && parser.Waits(w) && w.i == pos <= |s| && Left(all, seen, c, s, w)
    modifies parser, parser.hdr
    ensures r.Over? ==> all == Run(seen, r.end)
    ensures !r.Over? ==> parser.Valid() && parser.Waits(w') && pos < next == w'.i <= |s| && Left(all, seen + got, c, s, w')
    ensures r.Got? ==> fresh(r.msg.buf) && InBuffer(r.msg) && got == [Seen(r.msg)]
    ensures r.Went? ==> got == []
  {
    r, next, w' := TakeTurn(c, parser, s, pos, w);
    got := if r.Got? then [Seen(r.msg)] else [];
    if r.Over? {
      LeftAtEnd(all, seen, c, s, w, r.end);
    } else {
      LeftAfter(all, seen, c, s, w, w', got);
    }
  }

  /**
   The loop of a connection, over all the bytes the peer sends: what it delivers, read
   when the connection is over, is the frames of the stream, and it ends where they do.
   */
  method HandleConnection(c: Codecs, s: seq<byte>) returns (out: seq<Delivered>, ghost hdr: array<byte>, end: End)
    ensures fresh(hdr) && forall d | d in out :: fresh(d.buf)
    ensures Intact(out, Frames(c, s, ForHdr(0)).msgs, hdr) && end == Frames(c, s, ForHdr(0)).end
  {
    var parser := new Parser(false);
    hdr, out := parser.hdr, [];
    var pos := 0;
    ghost var w, all, seen := ForHdr(0), Frames(c, s, ForHdr(0)), [];
    LeftAtStart(c, s);
    while true
      invariant parser.Valid() && parser.Waits(w) && w.i == pos <= |s|
      invariant fresh(parser) && fresh(hdr) && parser.hdr == hdr && forall d | d in out :: fresh(d.buf)
      invariant Intact(out, seen, hdr) && Left(all, seen, c, s, w)
      decreases |s| - pos
    {
      var r, next;
      ghost var w';
      ghost var got;
      r, next, w', got := ConnectionTurn(c, parser, s, pos, w, all, seen);
      if r.Over? {
        return out, hdr, r.end;
      }
      if r.Got? {
        out := out + [r.msg];
      }
      pos, w, seen := next, w', seen + got;
    }
  }
}
