/**
 The archive written by a raw tap (tap.go) and read back by the replay input
 (replay.go): the same framing as on the wire.
 */
module Archive {
  import opened Common
  import opened EncapSt

  datatype StreamType = MsgDefault | StreamGpb | StreamGpbKv | StreamJson | StreamJsonEvents | StreamTemplate | Unknown

  /** A message at the tap: its native stream type, and its native bytes unless producing them fails. */
  datatype TapMsg = TapMsg(streamType: StreamType, bytes: Option<seq<byte>>)

  function EncodingOf(t: StreamType): Option<Encoding> {
    match t
    case StreamGpb => Some(Gpb)
    case StreamJson => Some(Json)
    case StreamGpbKv => Some(GpbKv)
    case _ => None
  }

  function EncapOf(e: Encoding): Option<uint16> {
    match e
    case Gpb => Some(ENCAP_GPB)
    case Json => Some(ENCAP_JSON)
    case GpbKv => Some(ENCAP_GPB_KV)
    case _ => None
  }

  /** Messages without bytes or without an encapsulation are skipped. */
  predicate Written(m: TapMsg) {
    m.bytes.Some? && EncodingOf(m.streamType).Some? && EncapOf(EncodingOf(m.streamType).value).Some?
  }

  function HeaderFor(m: TapMsg): Header
    requires Written(m)
  {
    Header(TELEMETRY_DATA, EncapOf(EncodingOf(m.streamType).value).value, HDR_VERSION, FLAGS_NONE, |m.bytes.value| % 0x1_0000_0000)
  }

  function Record(m: TapMsg): seq<byte> {
    if Written(m) then WriteHeader(HeaderFor(m)) + m.bytes.value else []
  }

  /** The archive of the messages from `k` on. */
  function Records(ms: seq<TapMsg>, k: nat): seq<byte>
    requires k <= |ms|
    decreases |ms| - k
  {
    if k == |ms| then [] else Record(ms[k]) + Records(ms, k + 1)
  }

  function Taken(m: TapMsg): seq<DataMsg> {
    if Written(m) then [DataMsg(EncodingOf(m.streamType).value, m.bytes.value)] else []
  }

  /** The messages the archive stands for. */
  function Messages(ms: seq<TapMsg>, k: nat): seq<DataMsg>
    requires k <= |ms|
    decreases |ms| - k
  {
    if k == |ms| then [] else Taken(ms[k]) + Messages(ms, k + 1)
  }

  /** The tap's loop: one record after another at the end of the file. */
  method Tap(ms: seq<TapMsg>, file: seq<byte>) returns (out: seq<byte>)
    ensures out == file + Records(ms, 0)
  {
    out := file;
    for i := 0 to |ms|
      invariant out + Records(ms, i) == file + Records(ms, 0)
    {
      ghost var before := out;
      Assoc(before, Record(ms[i]), Records(ms, i + 1));
      var m := ms[i];
      if m.bytes.None? {
        assert before + [] == before;
        continue;
      }
      var enc := EncodingOf(m.streamType);
      if enc.None? {
        assert before + [] == before;
        continue;
      }
      var encst := EncapOf(enc.value);
      if encst.None? {
        assert before + [] == before;
        continue;
      }
      var b := m.bytes.value;
      out := out + WriteHeader(Header(TELEMETRY_DATA, encst.value, HDR_VERSION, FLAGS_NONE, |b| % 0x1_0000_0000));
      out := out + b;
      Assoc(before, WriteHeader(HeaderFor(m)), b);
    }
    assert out + [] == out;
  }

  /** The number under which a message is archived: 1 for GPB, 2 for JSON, 4 for key/value GPB; other messages are not archived. */
  function Number(t: StreamType): Option<uint16> {
    match t
    case StreamGpb => Some(1)
    case StreamJson => Some(2)
    case StreamGpbKv => Some(4)
    case _ => None
  }

  /** What is archived of a message: a header of type 1, version 1 and no flags, with the message's number and length, and its bytes. */
  lemma RecordLayout(m: TapMsg)
    ensures Records([m], 0) ==
            if m.bytes.Some? && Number(m.streamType).Some?
            then WriteHeader(Header(1, Number(m.streamType).value, 1, 0, |m.bytes.value| % 0x1_0000_0000)) + m.bytes.value
            else []
    ensures Messages([m], 0) ==
            if m.bytes.Some? && Number(m.streamType).Some?
            then [DataMsg(if m.streamType.StreamGpb? then Gpb else if m.streamType.StreamJson? then Json else GpbKv, m.bytes.value)] else []
  {
    assert Records([m], 1) == [] && Record(m) + [] == Record(m);
    assert Messages([m], 1) == [] && Taken(m) + [] == Taken(m);
  }

  /** The messages an archive stands for are those of its parts. */
  lemma {:induction false} MessagesAppend(a: seq<TapMsg>, b: seq<TapMsg>, k: nat)
    requires k <= |a|
    ensures Messages(a + b, k) == Messages(a, k) + Messages(b, 0)
    decreases |a| - k
  {
    if k == |a| {
      MessagesShift(a, b, 0);
    } else {
      MessagesAppend(a, b, k + 1);
      Assoc(Taken(a[k]), Messages(a, k + 1), Messages(b, 0));
    }
  }

  lemma {:induction false} MessagesShift(a: seq<TapMsg>, b: seq<TapMsg>, k: nat)
    requires k <= |b|
    ensures Messages(a + b, |a| + k) == Messages(b, k)
    decreases |b| - k
  {
    if k < |b| {
      MessagesShift(a, b, k + 1);
      assert (a + b)[|a| + k] == b[k] && |a| + k + 1 == |a| + (k + 1);
    }
  }

  /** Successive taps to the same file make one archive. */
  lemma {:induction false} RecordsAppend(a: seq<TapMsg>, b: seq<TapMsg>, k: nat)
    requires k <= |a|
    ensures Records(a + b, k) == Records(a, k) + Records(b, 0)
    decreases |a| - k
  {
    if k == |a| {
      RecordsShift(a, b, 0);
    } else {
      RecordsAppend(a, b, k + 1);
      OneMore(Record(a[k]), Records(a + b, k + 1), Records(a, k + 1), Records(b, 0));
    }
  }

  lemma OneMore(r: seq<byte>, all: seq<byte>, x: seq<byte>, y: seq<byte>)
    requires all == x + y
    ensures r + all == r + x + y
  {
  }

  lemma {:induction false} RecordsShift(a: seq<TapMsg>, b: seq<TapMsg>, k: nat)
    requires k <= |b|
    ensures Records(a + b, |a| + k) == Records(b, k)
    decreases |b| - k
  {
    if k < |b| {
      RecordsShift(a, b, k + 1);
      assert (a + b)[|a| + k] == b[k] && |a| + k + 1 == |a| + (k + 1);
    }
  }

  // ---------------------------------------------------------------------------
  // Reading an archive back

  /** What a message must be for the parser to give it back. */
  predicate Replayable(c: Codecs, m: TapMsg)
    requires Written(m)
  {
    var b := m.bytes.value;
    1 <= |b| <= MAX_PAYLOAD && !m.streamType.StreamGpbKv? && (m.streamType.StreamGpb? ==> c.gpb(b))
  }

  predicate AllReplayable(c: Codecs, ms: seq<TapMsg>, k: nat)
    requires k <= |ms|
    decreases |ms| - k
  {
    k == |ms| || ((Written(ms[k]) ==> Replayable(c, ms[k])) && AllReplayable(c, ms, k + 1))
  }

  function RecordSize(m: TapMsg): nat {
    if Written(m) then HDR_SIZE + |m.bytes.value| else 0
  }

  /** The bytes from `i` on are `run` to a parser that waits for a header. */
  ghost predicate Reads(c: Codecs, s: seq<byte>, i: nat, run: Run) {
    forall now :: ReadsHere(c, s, i, run, now)
  }

  ghost predicate ReadsHere(c: Codecs, s: seq<byte>, i: nat, run: Run, now: bool) {
    now ==> Frames(c, s, ForHdr(i)) == run
  }

  lemma ReadsFrames(c: Codecs, s: seq<byte>, i: nat)
    ensures Reads(c, s, i, Frames(c, s, ForHdr(i)))
  {
    assert forall now :: ReadsHere(c, s, i, Frames(c, s, ForHdr(i)), now);
  }

  /** The first `n` bytes of the payload at `j`, behind the record's header. */
  ghost predicate Holds(s: seq<byte>, i: nat, m: TapMsg, n: nat) {
    forall now :: HoldsHere(s, i, m, n, now)
  }

  ghost predicate HoldsHere(s: seq<byte>, i: nat, m: TapMsg, n: nat, now: bool) {
    now ==>
      && Written(m) && n <= |m.bytes.value| && i + HDR_SIZE + n <= |s|
      && s[i..i + HDR_SIZE] == WriteHeader(HeaderFor(m)) && s[i + HDR_SIZE..i + HDR_SIZE + n] == m.bytes.value[..n]
  }

  /** A record's header leads to its payload, if the parser accepts it. */
  lemma RecordHeader(c: Codecs, s: seq<byte>, i: nat, m: TapMsg)
    requires Written(m) && Holds(s, i, m, 0)
    ensures var len := |m.bytes.value| % 0x1_0000_0000;
            StepAt(c, s, ForHdr(i)) ==
            if len <= MAX_PAYLOAD then Moves(ForData(i + HDR_SIZE, EncodingOf(m.streamType).value, len)) else Ends(BadHeader)
  {
    assert HoldsHere(s, i, m, 0, true);
    HeaderReadBack(HeaderFor(m), s, i);
  }

  /** The payload, or the part of it that the header announces. */
  lemma RecordPayload(c: Codecs, s: seq<byte>, i: nat, m: TapMsg, len: nat)
    requires Written(m) && Holds(s, i, m, len)
    ensures len <= |m.bytes.value| &&
            var enc, b := EncodingOf(m.streamType).value, m.bytes.value[..len];
            StepAt(c, s, ForData(i + HDR_SIZE, enc, len)) ==
            if len == 0 then Ends(EmptyBlock)
            else if Decode(c, enc, b).None? then Ends(BadPayload)
            else Yields(DataMsg(enc, b), ForHdr(i + HDR_SIZE + len))
  {
    assert HoldsHere(s, i, m, len, true);
  }

  lemma HoldsLess(s: seq<byte>, i: nat, m: TapMsg, n: nat, k: nat)
    requires Written(m) && Holds(s, i, m, n) && k <= n
    ensures Holds(s, i, m, k)
  {
    assert HoldsHere(s, i, m, n, true);
    var j, b := i + HDR_SIZE, m.bytes.value;
    assert s[j..j + k] == s[j..j + n][..k] == b[..n][..k] == b[..k];
    assert forall now :: HoldsHere(s, i, m, k, now);
  }

  /** One record in a stream: the parser passes it and gives the message back exactly when it is replayable. */
  lemma OneRecord(c: Codecs, s: seq<byte>, i: nat, m: TapMsg, rest: Run) returns (run: Run)
    requires Written(m) && Holds(s, i, m, |m.bytes.value|) && Reads(c, s, i + RecordSize(m), rest)
    ensures Reads(c, s, i, run)
    ensures Replayable(c, m) ==> run == Run(Taken(m) + rest.msgs, rest.end)
    ensures !Replayable(c, m) ==> run.msgs == [] || run.msgs[0] != Taken(m)[0]
  {
    var b := m.bytes.value;
    var len := |b| % 0x1_0000_0000;
    HoldsLess(s, i, m, |b|, 0);
    HoldsLess(s, i, m, |b|, len);
    RecordHeader(c, s, i, m);
    RecordPayload(c, s, i, m, len);
    assert |b| == len ==> b[..len] == b;
    assert ReadsHere(c, s, i + RecordSize(m), rest, true);
    run := Frames(c, s, ForHdr(i));
    ReadsFrames(c, s, i);
    if len <= MAX_PAYLOAD {
      var w := ForData(i + HDR_SIZE, EncodingOf(m.streamType).value, len);
      assert run == Frames(c, s, w);
      assert Replayable(c, m) ==> StepAt(c, s, w) == Yields(Taken(m)[0], ForHdr(i + RecordSize(m)));
    }
  }

  /** From `i` on the stream holds the archive of the messages from `k` on, or the first bytes of it. */
  ghost predicate StandsFor(s: seq<byte>, i: nat, ms: seq<TapMsg>, k: nat, cut: bool) {
    forall now :: StandsForHere(s, i, ms, k, cut, now)
  }

  ghost predicate StandsForHere(s: seq<byte>, i: nat, ms: seq<TapMsg>, k: nat, cut: bool, now: bool) {
    now ==> k <= |ms| && i <= |s| && s[i..] <= Records(ms, k) && (!cut ==> |s| - i == |Records(ms, k)|)
  }

  lemma StandsForAll(s: seq<byte>, ms: seq<TapMsg>, cut: bool)
    requires s <= Records(ms, 0) && (!cut ==> |s| == |Records(ms, 0)|)
    ensures StandsFor(s, 0, ms, 0, cut)
  {
    assert s[0..] == s;
    assert forall now :: StandsForHere(s, 0, ms, 0, cut, now);
  }

  lemma Within(s: seq<byte>, i: nat, r: seq<byte>, rest: seq<byte>)
    requires i + |r| <= |s| && s[i..] <= r + rest
    ensures s[i..i + |r|] == r && s[i + |r|..] <= rest
  {
    assert s[i..i + |r|] == s[i..][..|r|] == (r + rest)[..|r|];
    assert s[i + |r|..] == s[i..][|r|..] == (r + rest)[|r|..|s| - i] == rest[..|s| - i - |r|];
  }

  lemma StandsForNext(s: seq<byte>, i: nat, ms: seq<TapMsg>, k: nat, cut: bool)
    requires k < |ms| && StandsFor(s, i, ms, k, cut) && (cut ==> i + RecordSize(ms[k]) <= |s|)
    ensures i + RecordSize(ms[k]) <= |s| && (Written(ms[k]) ==> Holds(s, i, ms[k], |ms[k].bytes.value|))
    ensures StandsFor(s, i + RecordSize(ms[k]), ms, k + 1, cut)
  {
    assert StandsForHere(s, i, ms, k, cut, true);
    var r, next := Record(ms[k]), k + 1;
    var j := i + |r|;
    Within(s, i, r, Records(ms, next));
    assert forall now :: StandsForHere(s, j, ms, next, cut, now);
    if Written(ms[k]) {
      Parts(s, i, ms[k]);
    }
  }

  lemma Parts(s: seq<byte>, i: nat, m: TapMsg)
    requires Written(m) && i + RecordSize(m) <= |s| && s[i..i + RecordSize(m)] == Record(m)
    ensures Holds(s, i, m, |m.bytes.value|)
  {
    var hdr, b, r := WriteHeader(HeaderFor(m)), m.bytes.value, s[i..i + RecordSize(m)];
    assert r == hdr + b;
    assert s[i..i + |hdr|] == r[..|hdr|] == hdr;
    assert s[i + |hdr|..i + |hdr| + |b|] == r[|hdr|..] == b == b[..|b|];
    assert forall now :: HoldsHere(s, i, m, |b|, now);
  }

  lemma SameHead(a: seq<DataMsg>, b: seq<DataMsg>, x: seq<DataMsg>)
    ensures x + a == x + b <==> a == b
  {
    assert a == (x + a)[|x|..] && b == (x + b)[|x|..];
  }

  lemma SameHeads(a: Run, b: seq<DataMsg>, m: TapMsg)
    requires Written(m)
    ensures Run(Taken(m) + a.msgs, a.end) == Run(Taken(m) + b, Eof) <==> a == Run(b, Eof)
    ensures (Taken(m) + b)[0] == Taken(m)[0]
  {
    SameHead(a.msgs, b, Taken(m));
  }

  lemma AtEndOfFile(c: Codecs, s: seq<byte>, i: nat, ms: seq<TapMsg>, cut: bool)
    requires StandsFor(s, i, ms, |ms|, cut)
    ensures Reads(c, s, i, Run([], Eof)) && i == |s|
  {
    assert StandsForHere(s, i, ms, |ms|, cut, true);
    assert |s[i..]| == 0;
    assert forall now :: ReadsHere(c, s, i, Run([], Eof), now);
  }

  lemma {:induction false} ReadBack(c: Codecs, s: seq<byte>, i: nat, ms: seq<TapMsg>, k: nat) returns (run: Run)
    requires k <= |ms| && StandsFor(s, i, ms, k, false)
    ensures Reads(c, s, i, run)
    ensures run == Run(Messages(ms, k), Eof) <==> AllReplayable(c, ms, k)
    decreases |ms| - k
  {
    if k == |ms| {
      AtEndOfFile(c, s, i, ms, false);
      run := Run([], Eof);
    } else {
      StandsForNext(s, i, ms, k, false);
      var rest := ReadBack(c, s, i + RecordSize(ms[k]), ms, k + 1);
      if Written(ms[k]) {
        run := OneRecord(c, s, i, ms[k], rest);
        SameHeads(rest, Messages(ms, k + 1), ms[k]);
      } else {
        run := rest;
        assert [] + Messages(ms, k + 1) == Messages(ms, k + 1);
      }
    }
  }

  /**
   An archive reads back as the messages it was written from, in order and to the end
   of the file, if and only if every message written can be replayed.
   */
  lemma ArchiveRoundTrip(c: Codecs, ms: seq<TapMsg>)
    ensures Frames(c, Records(ms, 0), ForHdr(0)) == Run(Messages(ms, 0), Eof) <==> AllReplayable(c, ms, 0)
  {
    var s := Records(ms, 0);
    StandsForAll(s, ms, false);
    var run := ReadBack(c, s, 0, ms, 0);
    assert ReadsHere(c, s, 0, run, true);
  }

  /** What the parser waits for when the reading ends. */
  function Rests(c: Codecs, s: seq<byte>, w: Wait): Wait
    decreases |s| - w.i
  {
    match StepAt(c, s, w)
    case Ends(_) => w
    case Moves(w') => Rests(c, s, w')
    case Yields(_, w') => Rests(c, s, w')
  }

  lemma RecordPassed(c: Codecs, s: seq<byte>, i: nat, m: TapMsg)
    requires Written(m) && Replayable(c, m) && Holds(s, i, m, |m.bytes.value|)
    ensures Rests(c, s, ForHdr(i)) == Rests(c, s, ForHdr(i + RecordSize(m)))
  {
    var b := m.bytes.value;
    HoldsLess(s, i, m, |b|, 0);
    RecordHeader(c, s, i, m);
    RecordPayload(c, s, i, m, |b|);
    assert b[..|b|] == b;
    var w := ForData(i + HDR_SIZE, EncodingOf(m.streamType).value, |b|);
    assert StepAt(c, s, ForHdr(i)) == Moves(w) && StepAt(c, s, w) == Yields(Taken(m)[0], ForHdr(i + RecordSize(m)));
    assert Rests(c, s, ForHdr(i)) == Rests(c, s, w);
  }

  lemma {:induction false} RecordsPassed(c: Codecs, s: seq<byte>, i: nat, ms: seq<TapMsg>, k: nat) returns (w: Wait)
    requires k <= |ms| && i <= |s| && StandsFor(s, i, ms, k, false) && AllReplayable(c, ms, k)
    ensures w == Rests(c, s, ForHdr(i)) == ForHdr(|s|)
    decreases |ms| - k
  {
    if k == |ms| {
      AtEndOfFile(c, s, i, ms, false);
      w := ForHdr(|s|);
    } else {
      StandsForNext(s, i, ms, k, false);
      w := RecordsPassed(c, s, i + RecordSize(ms[k]), ms, k + 1);
      if Written(ms[k]) {
        RecordPassed(c, s, i, ms[k]);
      }
    }
  }

  /** After an archive that can be replayed the parser waits for a header, and no byte is left. */
  lemma ArchiveEndsAtHeader(c: Codecs, ms: seq<TapMsg>)
    requires AllReplayable(c, ms, 0)
    ensures Rests(c, Records(ms, 0), ForHdr(0)) == ForHdr(|Records(ms, 0)|)
  {
    var s := Records(ms, 0);
    StandsForAll(s, ms, false);
    var w := RecordsPassed(c, s, 0, ms, 0);
  }

  // ---------------------------------------------------------------------------
  // An archive that was cut short

  /** The messages whose records fit in the first `room` bytes. */
  function Fitting(ms: seq<TapMsg>, k: nat, room: nat): seq<DataMsg>
    requires k <= |ms|
    decreases |ms| - k
  {
    if k == |ms| || RecordSize(ms[k]) > room then [] else Taken(ms[k]) + Fitting(ms, k + 1, room - RecordSize(ms[k]))
  }

  /** The part of a record that is there ends the reading. */
  lemma CutRecord(c: Codecs, s: seq<byte>, i: nat, m: TapMsg) returns (run: Run)
    requires Written(m) && Replayable(c, m) && i <= |s| < i + RecordSize(m)
    requires i + HDR_SIZE <= |s| ==> Holds(s, i, m, 0)
    ensures Reads(c, s, i, run) && run.msgs == [] && run.end in {Eof, Short}
  {
    ReadsFrames(c, s, i);
    run := Frames(c, s, ForHdr(i));
    if i + HDR_SIZE <= |s| {
      RecordHeader(c, s, i, m);
      var w := ForData(i + HDR_SIZE, EncodingOf(m.streamType).value, |m.bytes.value|);
      assert StepAt(c, s, w) == Ends(Missing(s, i + HDR_SIZE));
      assert run == Frames(c, s, w);
    }
  }

  lemma CutParts(s: seq<byte>, i: nat, ms: seq<TapMsg>, k: nat)
    requires k < |ms| && Written(ms[k]) && StandsFor(s, i, ms, k, true) && i + HDR_SIZE <= |s|
    ensures Holds(s, i, ms[k], 0)
  {
    assert StandsForHere(s, i, ms, k, true, true);
    var hdr, b, rest := WriteHeader(HeaderFor(ms[k])), ms[k].bytes.value, Records(ms, k + 1);
    Assoc(hdr, b, rest);
    Within(s, i, hdr, b + rest);
    assert b[..0] == [];
    assert forall now :: HoldsHere(s, i, ms[k], 0, now);
  }

  lemma {:induction false} CutArchive(c: Codecs, s: seq<byte>, i: nat, ms: seq<TapMsg>, k: nat) returns (run: Run)
    requires k <= |ms| && AllReplayable(c, ms, k) && i <= |s| && StandsFor(s, i, ms, k, true)
    ensures Reads(c, s, i, run) && run.msgs == Fitting(ms, k, |s| - i) && run.end in {Eof, Short}
    decreases |ms| - k
  {
    if k == |ms| {
      AtEndOfFile(c, s, i, ms, true);
      run := Run([], Eof);
    } else if RecordSize(ms[k]) > |s| - i {
      run := CutHere(c, s, i, ms, k);
    } else {
      var j := i + RecordSize(ms[k]);
      StandsForNext(s, i, ms, k, true);
      var rest := CutArchive(c, s, j, ms, k + 1);
      run := CutNext(c, s, i, ms, k, rest);
      assert |s| - i - RecordSize(ms[k]) == |s| - j;
    }
  }

  lemma CutNext(c: Codecs, s: seq<byte>, i: nat, ms: seq<TapMsg>, k: nat, rest: Run) returns (run: Run)
    requires k < |ms| && (Written(ms[k]) ==> Replayable(c, ms[k]) && Holds(s, i, ms[k], |ms[k].bytes.value|))
    requires Reads(c, s, i + RecordSize(ms[k]), rest)
    ensures Reads(c, s, i, run) && run == Run(Taken(ms[k]) + rest.msgs, rest.end)
  {
    if Written(ms[k]) {
      run := OneRecord(c, s, i, ms[k], rest);
    } else {
      run := rest;
      assert [] + rest.msgs == rest.msgs;
    }
  }

  lemma CutHere(c: Codecs, s: seq<byte>, i: nat, ms: seq<TapMsg>, k: nat) returns (run: Run)
    requires k < |ms| && StandsFor(s, i, ms, k, true) && i <= |s| < i + RecordSize(ms[k]) && Replayable(c, ms[k])
    ensures Reads(c, s, i, run) && run.msgs == [] && run.end in {Eof, Short}
  {
    if i + HDR_SIZE <= |s| {
      CutParts(s, i, ms, k);
    }
    run := CutRecord(c, s, i, ms[k]);
  }

  /** However many bytes of an archive reached the disk, exactly the complete records are read back, and no other message. */
  lemma CutArchiveReads(c: Codecs, s: seq<byte>, ms: seq<TapMsg>)
    requires s <= Records(ms, 0) && AllReplayable(c, ms, 0)
    ensures var run := Frames(c, s, ForHdr(0)); run.msgs == Fitting(ms, 0, |s|) && run.end in {Eof, Short}
  {
    StandsForAll(s, ms, true);
    var run := CutArchive(c, s, 0, ms, 0);
    assert ReadsHere(c, s, 0, run, true);
  }

  // ---------------------------------------------------------------------------
  // Replay

  /** One iteration of the replay loop, from what its parser waits for. */
  datatype Act = Quiet(w: Wait) | Emit(m: DataMsg, w: Wait) | Stop | Fail(end: End)

  function ActAt(c: Codecs, s: seq<byte>, loop: bool, w: Wait): Act {
    match StepAt(c, s, w)
    case Ends(end) => if !end.Eof? then Fail(end) else if loop then Quiet(ForHdr(0)) else Stop
    case Moves(w') => Quiet(w')
    case Yields(m, w') => Emit(m, w')
  }

  /** What a number of iterations hands on; `at` is `None` when the replay has ended by then. */
  datatype Progress = Progress(out: seq<DataMsg>, at: Option<Wait>)

  function Iterate(act: Wait -> Act, w: Wait, n: nat): Progress
    decreases n
  {
    if n == 0 then Progress([], Some(w))
    else
      match act(w)
      case Quiet(w') => Iterate(act, w', n - 1)
      case Emit(m, w') => var p := Iterate(act, w', n - 1); Progress([m] + p.out, p.at)
      case _ => Progress([], None)
  }

  lemma {:induction false} Compose(act: Wait -> Act, w: Wait, a: nat, b: nat)
    requires Iterate(act, w, a).at.Some?
    ensures var p := Iterate(act, w, a);
            var q := Iterate(act, p.at.value, b);
            Iterate(act, w, a + b) == Progress(p.out + q.out, q.at)
    decreases a
  {
    var p := Iterate(act, w, a);
    var q := Iterate(act, p.at.value, b);
    if a == 0 {
      assert [] + q.out == q.out;
    } else {
      match act(w)
      case Quiet(w') =>
        Compose(act, w', a - 1, b);
      case Emit(m, w') =>
        Compose(act, w', a - 1, b);
        Assoc([m], Iterate(act, w', a - 1).out, q.out);
    }
  }

  /** More iterations only ever add messages. */
  lemma {:induction false} Grows(act: Wait -> Act, w: Wait, a: nat, b: nat)
    requires a <= b
    ensures Iterate(act, w, a).out <= Iterate(act, w, b).out
    ensures Iterate(act, w, b).at.Some? ==> Iterate(act, w, a).at.Some?
    decreases a
  {
    if a > 0 {
      match act(w)
      case Quiet(w') =>
        Grows(act, w', a - 1, b - 1);
      case Emit(m, w') =>
        Grows(act, w', a - 1, b - 1);
      case _ =>
    }
  }

  lemma {:induction false} EndedStays(act: Wait -> Act, w: Wait, n: nat, k: nat)
    requires n <= k && Iterate(act, w, n).at.None?
    ensures Iterate(act, w, k) == Iterate(act, w, n)
    decreases n
  {
    match act(w)
    case Quiet(w') =>
      EndedStays(act, w', n - 1, k - 1);
    case Emit(m, w') =>
      EndedStays(act, w', n - 1, k - 1);
    case _ =>
  }

  /** The iterations of a replay. */
  function Player(c: Codecs, s: seq<byte>, loop: bool): Wait -> Act {
    (w: Wait) => ActAt(c, s, loop, w)
  }

  /** A pass over the file hands on its messages, then starts over if it can loop and came to the end of the file, and ends otherwise. */
  lemma {:induction false} Pass(c: Codecs, s: seq<byte>, loop: bool, w: Wait) returns (n: nat)
    ensures n > 0
    ensures var all := Frames(c, s, w);
            Iterate(Player(c, s, loop), w, n) == Progress(all.msgs, if loop && all.end.Eof? then Some(ForHdr(0)) else None)
    decreases |s| - w.i
  {
    match StepAt(c, s, w)
    case Ends(_) =>
      n := 1;
    case Moves(w') =>
      n := Pass(c, s, loop, w');
      n := n + 1;
    case Yields(m, w') =>
      n := Pass(c, s, loop, w');
      n := n + 1;
  }

  /** Without looping, or when the file does not end cleanly, the messages of the file are handed on once and the replay ends. */
  lemma ReplayOnce(c: Codecs, s: seq<byte>, loop: bool, k: nat) returns (n: nat)
    requires loop ==> !Frames(c, s, ForHdr(0)).end.Eof?
    ensures Iterate(Player(c, s, loop), ForHdr(0), n) == Progress(Frames(c, s, ForHdr(0)).msgs, None)
    ensures Iterate(Player(c, s, loop), ForHdr(0), k).out <= Frames(c, s, ForHdr(0)).msgs
  {
    n := Pass(c, s, loop, ForHdr(0));
    if k <= n {
      Grows(Player(c, s, loop), ForHdr(0), k, n);
    } else {
      EndedStays(Player(c, s, loop), ForHdr(0), n, k);
    }
  }

  function Repeat(msgs: seq<DataMsg>, q: nat): seq<DataMsg> {
    if q == 0 then [] else msgs + Repeat(msgs, q - 1)
  }

  lemma ModMinus(k: nat, m: nat)
    requires 0 < m <= k
    ensures (k - m) % m == k % m
  {
    var q, r := k / m, k % m;
    assert k - m == (q - 1) * m + r;
    DivModUnique(k - m, m, q - 1, r);
  }

  lemma {:induction false} RepeatAt(msgs: seq<DataMsg>, q: nat, k: nat)
    requires msgs != [] && k < |Repeat(msgs, q)|
    ensures Repeat(msgs, q)[k] == msgs[k % |msgs|]
  {
    if k >= |msgs| {
      RepeatAt(msgs, q - 1, k - |msgs|);
      ModMinus(k, |msgs|);
    } else {
      assert k % |msgs| == k;
    }
  }

  lemma {:induction false} RepeatLength(msgs: seq<DataMsg>, q: nat)
    ensures |Repeat(msgs, q)| == q * |msgs|
  {
    if q > 0 {
      RepeatLength(msgs, q - 1);
      assert q * |msgs| == |msgs| + (q - 1) * |msgs|;
    }
  }

  lemma {:induction false} Passes(c: Codecs, s: seq<byte>, q: nat) returns (n: nat)
    requires Frames(c, s, ForHdr(0)).end.Eof?
    ensures n >= q
    ensures Iterate(Player(c, s, true), ForHdr(0), n) == Progress(Repeat(Frames(c, s, ForHdr(0)).msgs, q), Some(ForHdr(0)))
  {
    if q == 0 {
      n := 0;
    } else {
      var a := Pass(c, s, true, ForHdr(0));
      var b := Passes(c, s, q - 1);
      Compose(Player(c, s, true), ForHdr(0), a, b);
      n := a + b;
    }
  }

  /** In loop mode a file that ends cleanly is replayed for ever: no iteration fails, and the k-th message is that of the file, counted round. */
  lemma ReplayLoops(c: Codecs, s: seq<byte>, n: nat, k: nat)
    requires Frames(c, s, ForHdr(0)).end.Eof?
    ensures Iterate(Player(c, s, true), ForHdr(0), n).at.Some?
    ensures var msgs, out := Frames(c, s, ForHdr(0)).msgs, Iterate(Player(c, s, true), ForHdr(0), n).out;
            k < |out| ==> msgs != [] && out[k] == msgs[k % |msgs|]
  {
    var msgs, out := Frames(c, s, ForHdr(0)).msgs, Iterate(Player(c, s, true), ForHdr(0), n).out;
    var m := Passes(c, s, n);
    Grows(Player(c, s, true), ForHdr(0), n, m);
    RepeatLength(msgs, n);
    if k < |out| {
      assert out[k] == Repeat(msgs, n)[k];
      RepeatAt(msgs, n, k);
    }
  }

  /** It hands on as many messages as asked for, given time, exactly when the file holds one; otherwise it spins without ever handing on any. */
  lemma ReplayLoopsOn(c: Codecs, s: seq<byte>, many: nat) returns (n: nat)
    requires Frames(c, s, ForHdr(0)).end.Eof?
    ensures Frames(c, s, ForHdr(0)).msgs != [] ==> |Iterate(Player(c, s, true), ForHdr(0), n).out| >= many
    ensures Frames(c, s, ForHdr(0)).msgs == [] ==> Iterate(Player(c, s, true), ForHdr(0), many) == Progress([], Iterate(Player(c, s, true), ForHdr(0), many).at)
  {
    var msgs := Frames(c, s, ForHdr(0)).msgs;
    n := Passes(c, s, many);
    RepeatLength(msgs, many);
    if msgs != [] {
      assert many * |msgs| >= many * 1;
    } else {
      Grows(Player(c, s, true), ForHdr(0), many, n);
      assert many * 0 == 0;
    }
  }

  // ---------------------------------------------------------------------------
  // The limit on the number of messages

  /** With a limit, the iterations after the last message do nothing. */
  function Play(act: Wait -> Act, w: Wait, n: nat, limit: Option<nat>): Progress
    decreases n
  {
    if n == 0 || limit == Some(0) then Progress([], Some(w))
    else
      match act(w)
      case Quiet(w') => Play(act, w', n - 1, limit)
      case Emit(m, w') => var p := Play(act, w', n - 1, OneLess(limit)); Progress([m] + p.out, p.at)
      case _ => Progress([], None)
  }

  function OneLess(limit: Option<nat>): Option<nat> {
    if limit.Some? && limit.value > 0 then Some(limit.value - 1) else None
  }

  /** Of what an unlimited replay hands on, a limited one hands on exactly the first messages. */
  lemma {:induction false} PlayIsFirst(act: Wait -> Act, w: Wait, n: nat, limit: Option<nat>)
    ensures var out, p := Iterate(act, w, n).out, Play(act, w, n, limit);
            p.out == if limit.None? || |out| <= limit.value then out else out[..limit.value]
    ensures limit.None? ==> Play(act, w, n, limit) == Iterate(act, w, n)
    decreases n
  {
    if n > 0 && limit != Some(0) {
      match act(w)
      case Quiet(w') =>
        PlayIsFirst(act, w', n - 1, limit);
      case Emit(m, w') =>
        PlayIsFirst(act, w', n - 1, OneLess(limit));
      case _ =>
    }
  }

  /**
   With a limit of N, exactly the first N messages of the replay are handed on: never
   more, and all of them given time when the file is looped and holds one.
   */
  lemma ReplayFirstN(c: Codecs, s: seq<byte>, loop: bool, limit: nat, k: nat) returns (n: nat)
    ensures var out, p := Iterate(Player(c, s, loop), ForHdr(0), k).out, Play(Player(c, s, loop), ForHdr(0), k, Some(limit)).out;
            p <= out && |p| == if |out| < limit then |out| else limit
    ensures loop && Frames(c, s, ForHdr(0)) == Run(Frames(c, s, ForHdr(0)).msgs, Eof) && Frames(c, s, ForHdr(0)).msgs != [] ==>
              |Play(Player(c, s, loop), ForHdr(0), n, Some(limit)).out| == limit
  {
    PlayIsFirst(Player(c, s, loop), ForHdr(0), k, Some(limit));
    n := 0;
    if loop && Frames(c, s, ForHdr(0)).end.Eof? {
      n := ReplayLoopsOn(c, s, limit);
      PlayIsFirst(Player(c, s, loop), ForHdr(0), n, Some(limit));
    }
  }

  /** `goal` is what has been handed on and what the rest of the iterations will hand on. */
  ghost predicate ToPlay(goal: seq<DataMsg>, seen: seq<DataMsg>, act: Wait -> Act, w: Wait, n: nat, limit: Option<nat>) {
    forall now :: ToPlayHere(goal, seen, act, w, n, limit, now)
  }

  ghost predicate ToPlayHere(goal: seq<DataMsg>, seen: seq<DataMsg>, act: Wait -> Act, w: Wait, n: nat, limit: Option<nat>, now: bool) {
    now ==> goal == seen + Play(act, w, n, limit).out
  }

  lemma ToPlayStart(act: Wait -> Act, w: Wait, n: nat, limit: Option<nat>)
    ensures ToPlay(Play(act, w, n, limit).out, [], act, w, n, limit)
  {
    var goal := Play(act, w, n, limit).out;
    assert [] + goal == goal;
    assert forall now :: ToPlayHere(goal, [], act, w, n, limit, now);
  }

  lemma ToPlayStep(goal: seq<DataMsg>, seen: seq<DataMsg>, act: Wait -> Act, w: Wait, n: nat, limit: Option<nat>)
    requires n > 0 && limit != Some(0) && ToPlay(goal, seen, act, w, n, limit)
    ensures act(w).Quiet? ==> ToPlay(goal, seen, act, act(w).w, n - 1, limit)
    ensures act(w).Emit? ==> ToPlay(goal, seen + [act(w).m], act, act(w).w, n - 1, OneLess(limit))
    ensures !act(w).Quiet? && !act(w).Emit? ==> goal == seen
  {
    assert ToPlayHere(goal, seen, act, w, n, limit, true);
    var m := n - 1;
    match act(w)
    case Quiet(w') =>
      assert forall now :: ToPlayHere(goal, seen, act, w', m, limit, now);
    case Emit(x, w') =>
      var less, more := OneLess(limit), seen + [x];
      Assoc(seen, [x], Play(act, w', m, less).out);
      assert forall now :: ToPlayHere(goal, more, act, w', m, less, now);
    case _ =>
      assert seen + [] == seen;
  }

  lemma ToPlayOver(goal: seq<DataMsg>, seen: seq<DataMsg>, act: Wait -> Act, w: Wait, n: nat, limit: Option<nat>)
    requires ToPlay(goal, seen, act, w, n, limit) && (n == 0 || limit == Some(0))
    ensures goal == seen
  {
    assert ToPlayHere(goal, seen, act, w, n, limit, true);
    assert seen + [] == seen;
  }

  /** The replay input: a file, a parser, and a position in both. */
  class Replay {
    const file: seq<byte>
    const loop: bool
    const firstN: int
    var parser: Parser
    var pos: nat
    var count: nat
    var done: bool
    ghost var w: Wait

    ghost predicate Valid()
      reads this, parser, parser.hdr
    {
      parser.Valid() && parser.Waits(w) && w.i == pos <= |file|
    }

    constructor (file: seq<byte>, loop: bool, firstN: int)
      ensures Valid() && w == ForHdr(0) && this.file == file && this.loop == loop && this.firstN == firstN
      ensures count == 0 && !done && fresh(parser) && fresh(parser.hdr)
    {
      this.file, this.loop, this.firstN := file, loop, firstN;
      parser := new Parser(false);
      pos, count, done, w := 0, 0, false, ForHdr(0);
    }

    /** One iteration: the message it hands on, if any, and whether the feeder goes on. */
    method Iteration(c: Codecs) returns (msg: Option<Delivered>, goes: bool)
      requires Valid() && !done
      modifies this, parser, parser.hdr
      ensures goes ==> Valid() && (parser == old(parser) || (fresh(parser) && fresh(parser.hdr)))
      ensures msg.Some? ==> fresh(msg.value.buf) && InBuffer(msg.value) && msg.value.buf != parser.hdr
      ensures count == old(count) + if msg.Some? then 1 else 0
      ensures match ActAt(c, file, loop, old(w))
              case Quiet(w') => goes && msg.None? && w == w' && !done
              case Emit(m, w') => goes && msg.Some? && Seen(msg.value) == m && w == w' && (done <==> firstN != 0 && count == firstN)
              case Stop => !goes && msg.None? && !done
              case Fail(_) => !goes && msg.None? && done
    {
      msg, goes := None, true;
      var r, next;
      ghost var w';
      r, next, w' := TakeTurn(c, parser, file, pos, w);
      if r.Over? {
        if !r.end.Eof? {
          done := true;
          return None, false;
        }
        if !loop {
          return None, false;
        }
        parser := new Parser(false);
        pos, w := 0, ForHdr(0);
        return None, true;
      }
      pos, w := next, w';
      if r.Got? {
        msg := Some(r.msg);
        count := count + 1;
        if count == firstN && firstN != 0 {
          done := true;
        }
      }
    }

    /** How many messages are still to come before the limit; none is set by a value of zero or less. */
    ghost function Limit(): Option<nat>
      reads this
    {
      if firstN <= 0 then None else if count <= firstN then Some(firstN - count) else None
    }

    /** The limit has been kept, and the feeder is done exactly when it is reached. */
    ghost predicate Counted()
      reads this
    {
      (firstN > 0 ==> count <= firstN) && (done <==> Limit() == Some(0))
    }

    /** One iteration of the feeder, with what has been handed on and what is still to come. */
    method FeedOne(c: Codecs, ghost goal: seq<DataMsg>, ghost seen: seq<DataMsg>, ghost n: nat)
      returns (msg: Option<Delivered>, goes: bool, ghost got: seq<DataMsg>)
      requires Valid() && !done && Counted() && n > 0 && ToPlay(goal, seen, Player(c, file, loop), w, n, Limit())
      modifies this, parser, parser.hdr
      ensures goes ==> Valid() && Counted() && (parser == old(parser) || (fresh(parser) && fresh(parser.hdr)))
      ensures goes ==> ToPlay(goal, seen + got, Player(c, file, loop), w, n - 1, Limit())
      ensures !goes ==> goal == seen
      ensures msg.Some? ==> goes && fresh(msg.value.buf) && msg.value.buf != parser.hdr && InBuffer(msg.value) && got == [Seen(msg.value)]
      ensures msg.None? ==> got == []
    {
      ToPlayStep(goal, seen, Player(c, file, loop), w, n, Limit());
      msg, goes := Iteration(c);
      got := if msg.Some? then [Seen(msg.value)] else [];
      assert seen + [] == seen;
    }

    /** The feeder over a number of iterations: the messages it hands on, still as they were, are those of the limited replay. */
    method Feed(c: Codecs, iterations: nat) returns (out: seq<Delivered>, ghost hdr: array<byte>)
      requires Valid() && !done && w == ForHdr(0) && count == 0
      modifies this, parser, parser.hdr
      ensures Intact(out, Play(Player(c, file, loop), ForHdr(0), iterations, if firstN > 0 then Some(firstN) else None).out, hdr)
    {
      out, hdr := [], parser.hdr;
      ghost var seen, goal := [], Play(Player(c, file, loop), w, iterations, Limit()).out;
      ToPlayStart(Player(c, file, loop), w, iterations, Limit());
      for i := 0 to iterations
        invariant Valid() && Counted() && (parser == old(parser) || fresh(parser)) && (parser.hdr == old(parser.hdr) || fresh(parser.hdr))
        invariant Intact(out, seen, parser.hdr) && ToPlay(goal, seen, Player(c, file, loop), w, iterations - i, Limit())
      {
        hdr := parser.hdr;
        if done {
          ToPlayOver(goal, seen, Player(c, file, loop), w, iterations - i, Limit());
          return;
        }
        var msg, goes;
        ghost var got;
        msg, goes, got := FeedOne(c, goal, seen, iterations - i);
        if !goes {
          return;
        }
        if msg.Some? {
          out := out + [msg.value];
        }
        seen := seen + got;
      }
      hdr := parser.hdr;
      ToPlayOver(goal, seen, Player(c, file, loop), w, 0, Limit());
    }
  }
}
