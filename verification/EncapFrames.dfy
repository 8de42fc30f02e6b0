/**
 What is on the wire, without reference to the parser: the order of the header's bytes,
 and which streams carry which messages (encap_st.go).
 */
module EncapFrames {
  import opened Common
  import opened EncapSt

  // ---------------------------------------------------------------------------
  // The order of bytes and fields

  /** The first difference decides. */
  predicate Precedes(a: seq<int>, b: seq<int>) {
    a != [] && b != [] && (a[0] < b[0] || (a[0] == b[0] && Precedes(a[1..], b[1..])))
  }

  lemma {:induction false} PrecedesParts(a: seq<int>, b: seq<int>, x: seq<int>, y: seq<int>)
    requires |a| == |b|
    ensures Precedes(a + x, b + y) <==> Precedes(a, b) || (a == b && Precedes(x, y))
  {
    if a == [] {
      assert a + x == x && b + y == y;
    } else {
      assert (a + x)[1..] == a[1..] + x && (b + y)[1..] == b[1..] + y;
      PrecedesParts(a[1..], b[1..], x, y);
      assert a == [a[0]] + a[1..] && b == [b[0]] + b[1..];
    }
  }

  lemma One(m: int, n: int, x: seq<int>, y: seq<int>)
    ensures Precedes([m] + x, [n] + y) <==> m < n || (m == n && Precedes(x, y))
  {
    assert ([m] + x)[1..] == x && ([n] + y)[1..] == y;
  }

  lemma Order16(m: uint16, n: uint16, x: seq<int>, y: seq<int>)
    ensures Precedes(Be16(m) + x, Be16(n) + y) <==> m < n || (m == n && Precedes(x, y))
  {
    PrecedesParts(Be16(m), Be16(n), x, y);
    assert Be16(m)[1..] == [m % 0x100] && Be16(n)[1..] == [n % 0x100];
    assert [m % 0x100][1..] == [];
  }

  lemma Order32(m: uint32, n: uint32)
    ensures Precedes(Be32(m), Be32(n)) <==> m < n
  {
    var h, k, l, i := m / 0x1_0000, n / 0x1_0000, m % 0x1_0000, n % 0x1_0000;
    Halves(m);
    Halves(n);
    Order16(h, k, Be16(l), Be16(i));
    Order16(l, i, [], []);
    assert Be16(l) + [] == Be16(l) && Be16(i) + [] == Be16(i);
  }

  lemma Halves(n: uint32)
    ensures Be32(n) == Be16(n / 0x1_0000) + Be16(n % 0x1_0000)
  {
    var q, r := n / 0x1_0000, n % 0x1_0000;
    assert n / 0x100_0000 == q / 0x100;
    DivModUnique(n / 0x100, 0x100, q, r / 0x100);
    DivModUnique(n, 0x100, 0x100 * q + r / 0x100, r % 0x100);
  }

  /** The fields of a header in the order in which they are sent. */
  function FieldsOf(h: Header): seq<int> {
    [h.msgType, h.msgEncap, h.version, h.flag, h.len]
  }

  lemma HeaderParts(h: Header)
    ensures WriteHeader(h) == Be16(h.msgType) + (Be16(h.msgEncap) + (Be16(h.version) + (Be16(h.flag) + Be32(h.len))))
  {
  }

  lemma FieldParts(h: Header)
    ensures FieldsOf(h) == [h.msgType] + ([h.msgEncap] + ([h.version] + ([h.flag] + ([h.len] + []))))
  {
  }

  /**
   Headers compare on the wire as their fields do, in the order type, encapsulation,
   version, flags, length.  Headers and twelve bytes are one to one (HeaderReadBack and
   HeaderWrittenBack), so that this leaves no other layout than big-endian fields in that
   order.
   */
  lemma HeaderOrder(a: Header, b: Header)
    ensures Precedes(WriteHeader(a), WriteHeader(b)) <==> Precedes(FieldsOf(a), FieldsOf(b))
  {
    HeaderParts(a);
    HeaderParts(b);
    var a4, b4 := Be16(a.flag) + Be32(a.len), Be16(b.flag) + Be32(b.len);
    var a3, b3 := Be16(a.version) + a4, Be16(b.version) + b4;
    var a2, b2 := Be16(a.msgEncap) + a3, Be16(b.msgEncap) + b3;
    Order16(a.msgType, b.msgType, a2, b2);
    Order16(a.msgEncap, b.msgEncap, a3, b3);
    Order16(a.version, b.version, a4, b4);
    Order16(a.flag, b.flag, Be32(a.len), Be32(b.len));
    Order32(a.len, b.len);
    FieldOrder(a, b);
  }

  lemma FieldOrder(a: Header, b: Header)
    ensures Precedes(FieldsOf(a), FieldsOf(b)) <==>
            || a.msgType < b.msgType
            || (a.msgType == b.msgType &&
                (|| a.msgEncap < b.msgEncap
                 || (a.msgEncap == b.msgEncap &&
                     (|| a.version < b.version
                      || (a.version == b.version && (a.flag < b.flag || (a.flag == b.flag && a.len < b.len)))))))
  {
    FieldParts(a);
    FieldParts(b);
    One(a.len, b.len, [], []);
    One(a.flag, b.flag, [a.len] + [], [b.len] + []);
    One(a.version, b.version, [a.flag] + ([a.len] + []), [b.flag] + ([b.len] + []));
    One(a.msgEncap, b.msgEncap, [a.version] + ([a.flag] + ([a.len] + [])), [b.version] + ([b.flag] + ([b.len] + [])));
    One(a.msgType, b.msgType, [a.msgEncap] + ([a.version] + ([a.flag] + ([a.len] + []))),
        [b.msgEncap] + ([b.version] + ([b.flag] + ([b.len] + []))));
  }

  // ---------------------------------------------------------------------------
  // Frames

  datatype Frame = Frame(h: Header, payload: seq<byte>)

  /** The message that a payload is, by the number of its encapsulation: 1 for GPB, 2 for JSON, 3 for legacy GPB, which is rewritten. */
  function Carries(c: Codecs, encap: int, payload: seq<byte>): Option<DataMsg> {
    if encap == 2 then Some(DataMsg(Json, payload))
    else if encap == 1 && c.gpb(payload) then Some(DataMsg(Gpb, payload))
    else if encap == 3 && c.compact(payload).Some? then Some(DataMsg(Gpb, c.compact(payload).value))
    else None
  }

  predicate Known(h: Header) {
    h.flag == 0 && h.len <= 1_048_576 && 1 <= h.msgEncap <= 4
  }

  /** A frame that is delivered: the announced length is that of the payload, which is not empty. */
  predicate Whole(c: Codecs, f: Frame) {
    Known(f.h) && 0 < f.h.len == |f.payload| && Carries(c, f.h.msgEncap, f.payload).Some?
  }

  predicate AllWhole(c: Codecs, fs: seq<Frame>) {
    forall k | 0 <= k < |fs| :: Whole(c, fs[k])
  }

  function Wire(fs: seq<Frame>): seq<byte> {
    if fs == [] then [] else WriteHeader(fs[0].h) + fs[0].payload + Wire(fs[1..])
  }

  function Carried(c: Codecs, fs: seq<Frame>): seq<DataMsg>
    requires AllWhole(c, fs)
  {
    seq(|fs|, k requires 0 <= k < |fs| => Carries(c, fs[k].h.msgEncap, fs[k].payload).value)
  }

  /** Why no frame can be taken from the front of `tail`; a header of which no payload has come counts as the end of the stream. */
  predicate Stops(c: Codecs, tail: seq<byte>, end: End) {
    if |tail| < 12 then end == if tail == [] then Eof else Short
    else
      var h := ReadHeader(tail, 0);
      match end
      case Eof => Known(h) && 0 < h.len && |tail| == 12
      case Short => Known(h) && 12 < |tail| < 12 + h.len
      case BadHeader => !Known(h)
      case EmptyBlock => Known(h) && h.len == 0
      case BadPayload => Known(h) && 0 < h.len && 12 + h.len <= |tail| && Carries(c, h.msgEncap, tail[12..12 + h.len]).None?
  }

  function Shift(w: Wait, n: nat): Wait {
    match w
    case ForHdr(i) => ForHdr(n + i)
    case ForData(i, enc, len) => ForData(n + i, enc, len)
  }

  function ShiftStep(r: Step, n: nat): Step {
    match r
    case Ends(_) => r
    case Moves(w') => Moves(Shift(w', n))
    case Yields(m, w') => Yields(m, Shift(w', n))
  }

  lemma HeaderShift(c: Codecs, p: seq<byte>, s: seq<byte>, i: nat)
    ensures StepAt(c, p + s, ForHdr(|p| + i)) == ShiftStep(StepAt(c, s, ForHdr(i)), |p|)
  {
    if i + HDR_SIZE <= |s| {
      assert ReadHeader(p + s, |p| + i) == ReadHeader(s, i);
    }
  }

  lemma DataShift(c: Codecs, p: seq<byte>, s: seq<byte>, i: nat, enc: Encoding, len: nat)
    ensures StepAt(c, p + s, ForData(|p| + i, enc, len)) == ShiftStep(StepAt(c, s, ForData(i, enc, len)), |p|)
  {
    if i + len <= |s| {
      assert (p + s)[|p| + i..|p| + i + len] == s[i..i + len];
    }
  }

  lemma StepShift(c: Codecs, p: seq<byte>, s: seq<byte>, w: Wait)
    ensures StepAt(c, p + s, Shift(w, |p|)) == ShiftStep(StepAt(c, s, w), |p|)
  {
    match w
    case ForHdr(i) => HeaderShift(c, p, s, i);
    case ForData(i, enc, len) => DataShift(c, p, s, i, enc, len);
  }

  /** What is read from some point on depends on the bytes from there on. */
  lemma {:induction false} FramesShift(c: Codecs, p: seq<byte>, s: seq<byte>, w: Wait)
    ensures Frames(c, p + s, Shift(w, |p|)) == Frames(c, s, w)
    decreases |s| - w.i
  {
    StepShift(c, p, s, w);
    match StepAt(c, s, w)
    case Ends(_) =>
    case Moves(w') =>
      FramesShift(c, p, s, w');
    case Yields(_, w') =>
      FramesShift(c, p, s, w');
  }

  lemma CarriesIsDecode(c: Codecs, h: Header, payload: seq<byte>)
    ensures Known(h) <==> Acceptable(h)
    ensures Known(h) ==> Decode(c, CodecFor(h.msgEncap).value, payload) == Carries(c, h.msgEncap, payload)
  {
  }

  /** One frame in front. */
  lemma FrameThen(c: Codecs, f: Frame, s: seq<byte>)
    requires Whole(c, f)
    ensures var rest := Frames(c, s, ForHdr(0));
            Frames(c, WriteHeader(f.h) + f.payload + s, ForHdr(0)) == Run([Carries(c, f.h.msgEncap, f.payload).value] + rest.msgs, rest.end)
  {
    var p := WriteHeader(f.h) + f.payload;
    var all, w, m := p + s, ForData(12, CodecFor(f.h.msgEncap).value, f.h.len), Carries(c, f.h.msgEncap, f.payload).value;
    assert all[0..12] == WriteHeader(f.h);
    HeaderReadBack(f.h, all, 0);
    CarriesIsDecode(c, f.h, f.payload);
    assert all[12..12 + f.h.len] == f.payload;
    assert StepAt(c, all, ForHdr(0)) == Moves(w) && StepAt(c, all, w) == Yields(m, ForHdr(|p|));
    FramesShift(c, p, s, ForHdr(0));
    assert Shift(ForHdr(0), |p|) == ForHdr(|p|);
    assert Frames(c, all, ForHdr(0)) == Frames(c, all, w);
  }

  lemma TailStops(c: Codecs, tail: seq<byte>, end: End)
    requires Stops(c, tail, end)
    ensures Frames(c, tail, ForHdr(0)) == Run([], end)
  {
    if |tail| >= 12 {
      var h := ReadHeader(tail, 0);
      CarriesIsDecode(c, h, []);
      if Known(h) {
        var w := ForData(12, CodecFor(h.msgEncap).value, h.len);
        assert StepAt(c, tail, ForHdr(0)) == Moves(w);
        if 12 + h.len <= |tail| {
          CarriesIsDecode(c, h, tail[12..12 + h.len]);
        }
        assert StepAt(c, tail, w) == Ends(end);
        assert Frames(c, tail, ForHdr(0)) == Frames(c, tail, w);
      }
    }
  }

  lemma CarriedFirst(c: Codecs, fs: seq<Frame>)
    requires fs != [] && AllWhole(c, fs)
    ensures AllWhole(c, fs[1..]) && Carried(c, fs) == [Carries(c, fs[0].h.msgEncap, fs[0].payload).value] + Carried(c, fs[1..])
  {
  }

  /** Whole frames, and then something that is none: the messages are those of the frames, and the end is as the rest has it. */
  lemma {:induction false} FramesDelivered(c: Codecs, fs: seq<Frame>, tail: seq<byte>, end: End)
    requires AllWhole(c, fs) && Stops(c, tail, end)
    ensures Frames(c, Wire(fs) + tail, ForHdr(0)) == Run(Carried(c, fs), end)
  {
    if fs == [] {
      TailStops(c, tail, end);
      assert Wire(fs) + tail == tail && Carried(c, fs) == [];
    } else {
      var f, p := fs[0], WriteHeader(fs[0].h) + fs[0].payload;
      FramesDelivered(c, fs[1..], tail, end);
      FrameThen(c, f, Wire(fs[1..]) + tail);
      Assoc(p, Wire(fs[1..]), tail);
      CarriedFirst(c, fs);
    }
  }

  predicate Starts(c: Codecs, s: seq<byte>) {
    && |s| >= 12
    && var h := ReadHeader(s, 0);
       Known(h) && 0 < h.len && 12 + h.len <= |s| && Carries(c, h.msgEncap, s[12..12 + h.len]).Some?
  }

  lemma StartsOrStops(c: Codecs, s: seq<byte>) returns (end: End)
    ensures Starts(c, s) || Stops(c, s, end)
  {
    if |s| < 12 {
      end := if s == [] then Eof else Short;
    } else {
      var h := ReadHeader(s, 0);
      end := if !Known(h) then BadHeader else if h.len == 0 then EmptyBlock else if |s| == 12 then Eof
      else if |s| < 12 + h.len then Short else BadPayload;
    }
  }

  /** Every stream of bytes is such frames and such a rest, so that the two lemmas say of every stream what is read from it. */
  lemma {:induction false} EveryStream(c: Codecs, s: seq<byte>) returns (fs: seq<Frame>, tail: seq<byte>, end: End)
    ensures AllWhole(c, fs) && Stops(c, tail, end) && s == Wire(fs) + tail
    ensures Frames(c, s, ForHdr(0)) == Run(Carried(c, fs), end)
    decreases |s|
  {
    end := StartsOrStops(c, s);
    if Starts(c, s) {
      var h := ReadHeader(s, 0);
      var f, more := Frame(h, s[12..12 + h.len]), s[12 + h.len..];
      HeaderWrittenBack(s, 0);
      assert s == WriteHeader(h) + f.payload + more;
      fs, tail, end := EveryStream(c, more);
      Assoc(WriteHeader(h) + f.payload, Wire(fs), tail);
      assert ([f] + fs)[1..] == fs;
      fs := [f] + fs;
    } else {
      fs, tail := [], s;
      assert Wire(fs) + tail == s;
    }
    FramesDelivered(c, fs, tail, end);
  }

  /** A JSON message of two bytes, as it is sent. */
  lemma JsonFrame(c: Codecs)
    ensures Frames(c, [0x00, 0x01, 0x00, 0x02, 0x00, 0x01, 0x00, 0x00, 0x00, 0x00, 0x00, 0x02, 0x7b, 0x7d], ForHdr(0))
         == Run([DataMsg(Json, [0x7b, 0x7d])], Eof)
  {
    var f := Frame(Header(1, 2, 1, 0, 2), [0x7b, 0x7d]);
    var s: seq<byte> := [0x00, 0x01, 0x00, 0x02, 0x00, 0x01, 0x00, 0x00, 0x00, 0x00, 0x00, 0x02, 0x7b, 0x7d];
    assert [f][1..] == [];
    assert s == Wire([f]) + [];
    FramesDelivered(c, [f], [], Eof);
  }

  // ---------------------------------------------------------------------------
  // Datagrams

  /** A datagram is a header and the rest; the rest is delivered, all of it, when it is at least what the header announces. */
  lemma DatagramDelivered(c: Codecs, h: Header, payload: seq<byte>)
    ensures Datagram(c, WriteHeader(h) + payload) ==
            if h.flag == 0 && h.len <= |payload| then Carries(c, h.msgEncap, payload) else None
  {
    var block := WriteHeader(h) + payload;
    assert block[0..12] == WriteHeader(h);
    HeaderReadBack(h, block, 0);
    assert block[12..] == payload;
    if CodecFor(h.msgEncap).Some? {
      CarriesIsDecode(c, Header(0, h.msgEncap, 0, 0, 0), payload);
    }
  }

  lemma ShortDatagram(c: Codecs, block: seq<byte>)
    requires |block| < 12
    ensures Datagram(c, block).None?
  {
  }
}
