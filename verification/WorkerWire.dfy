// The framed wire between the greeter and its disposable worker:
// src/lock_authentication/worker_wire.cpp, and the deframing loop of
// src/lock_worker_client/worker_process.cpp.

module WorkerWire {
  import opened Basics

  type Bytes = seq<byte>

  datatype AttemptToken = AttemptToken(epoch: uint64, request: uint64)

  // The kind is the enumeration's underlying byte, which a caller can set to anything.
  datatype WireFrame = WireFrame(kind: byte, token: AttemptToken, payload: Bytes)

  const BEGIN: byte := 1
  const SECRET: byte := 2
  const VISIBLE: byte := 3
  const INFORMATION: byte := 4
  const ERROR: byte := 5
  const RESPONSE: byte := 6
  const RESULT: byte := 8

  const HEADER_BYTES: nat := 24
  const MAXIMUM_PROMPT_BYTES: nat := 4096
  const MAXIMUM_FRAME_BYTES: nat := HEADER_BYTES + MAXIMUM_PROMPT_BYTES

  // "QLA"
  const MAGIC: Bytes := [81, 76, 65]

  // ------------------------------------------------------------------- numbers

  function BigEndian(value: nat, width: nat): (bytes: Bytes)
    ensures |bytes| == width
  {
    if width == 0 then [] else BigEndian(value / 256, width - 1) + [(value % 256) as byte]
  }

  function Number(bytes: Bytes): nat {
    if bytes == [] then 0 else Number(bytes[..|bytes| - 1]) * 256 + bytes[|bytes| - 1] as nat
  }

  function Power(width: nat): nat {
    if width == 0 then 1 else 256 * Power(width - 1)
  }

  lemma {:induction false} NumberOfBigEndian(value: nat, width: nat)
    requires value < Power(width)
    ensures Number(BigEndian(value, width)) == value
  {
    if width > 0 {
      NumberOfBigEndian(value / 256, width - 1);
      var bytes := BigEndian(value, width);
      assert bytes[..width - 1] == BigEndian(value / 256, width - 1);
    }
  }

  lemma {:induction false} BigEndianOfNumber(bytes: Bytes)
    ensures Number(bytes) < Power(|bytes|)
    ensures BigEndian(Number(bytes), |bytes|) == bytes
  {
    if bytes != [] {
      BigEndianOfNumber(bytes[..|bytes| - 1]);
      assert bytes == bytes[..|bytes| - 1] + [bytes[|bytes| - 1]];
    }
  }

  lemma Widths()
    ensures Power(2) == 0x1_0000 && Power(8) == UINT64_LIMIT
  {
    assert Power(4) == 0x1_0000_0000 by {
      assert Power(2) == 256 * Power(1);
    }
    assert Power(6) == 0x1_0000_0000_0000 by {
      assert Power(5) == 256 * Power(4);
    }
    assert Power(7) == 256 * Power(6);
  }

  lemma BigEndianStep(value: nat, width: nat)
    ensures BigEndian(value, width) ==
            if width == 0 then [] else BigEndian(value / 256, width - 1) + [(value % 256) as byte]
  {
  }

  // put: the lowest byte goes last.
  method Put(bytes: array<byte>, offset: nat, value: uint64, width: nat)
    requires offset + width <= bytes.Length
    modifies bytes
    ensures bytes[..] == old(bytes[..offset]) + BigEndian(value as nat, width) + old(bytes[offset + width..])
  {
    hide BigEndian, Filled;
    ghost var was, low: Bytes := bytes[..], [];
    var left := value;
    var i := 0;
    BigEndianStep(left as nat, 0);
    FillBegins(was, offset + width);
    while i < width
      invariant 0 <= i <= width
      invariant BigEndian(value as nat, width) == BigEndian(left as nat, width - i) + low
      invariant Filled(was, offset + width, i, low, bytes[..])
    {
      ghost var now, digit := bytes[..], (left % 256) as byte;
      FillStep(was, offset + width, i, low, digit, now);
      BigEndianStep(left as nat, width - i);
      bytes[offset + width - i - 1] := (left % 256) as byte;
      assert bytes[..] == now[offset + width - i - 1 := digit];
      low := [digit] + low;
      left := left / 256;
      i := i + 1;
    }
    BigEndianStep(left as nat, 0);
    FillEnd(was, offset, width, low, bytes[..]);
  }

  // The i bytes before `end` have been written.
  ghost predicate Filled(was: Bytes, end: nat, i: nat, low: Bytes, now: Bytes) {
    i <= end <= |was| && |low| == i && now == was[..end - i] + low + was[end..]
  }

  lemma FillBegins(was: Bytes, end: nat)
    requires end <= |was|
    ensures Filled(was, end, 0, [], was)
  {
  }

  lemma FillStep(was: Bytes, end: nat, i: nat, low: Bytes, digit: byte, now: Bytes)
    requires i < end && Filled(was, end, i, low, now)
    ensures |now| == |was| && Filled(was, end, i + 1, [digit] + low, now[end - i - 1 := digit])
  {
    assert was[..end - i] == was[..end - i - 1] + [was[end - i - 1]];
  }

  lemma FillEnd(was: Bytes, offset: nat, width: nat, low: Bytes, now: Bytes)
    requires Filled(was, offset + width, width, low, now)
    ensures now == was[..offset] + low + was[offset + width..]
  {
  }

  // get: at most eight bytes, so nothing is shifted out.
  method Get(bytes: Bytes, offset: nat, width: nat) returns (value: uint64)
    requires offset + width <= |bytes| && width <= 8
    ensures value as nat == Number(bytes[offset..offset + width])
  {
    hide Number, Power, BigEndian;
    value := 0;
    var i := 0;
    NumberStep([]);
    assert bytes[offset..offset] == [];
    while i < width
      invariant 0 <= i <= width
      invariant value as nat == Number(bytes[offset..offset + i])
    {
      ghost var here := bytes[offset..offset + i + 1];
      assert here[..i] == bytes[offset..offset + i];
      NumberStep(here);
      BigEndianOfNumber(here);
      PowerGrows(i + 1, 8);
      Widths();
      value := value * 256 + bytes[offset + i] as uint64;
      i := i + 1;
    }
  }

  lemma NumberStep(bytes: Bytes)
    ensures Number(bytes) ==
            if bytes == [] then 0 else Number(bytes[..|bytes| - 1]) * 256 + bytes[|bytes| - 1] as nat
  {
  }

  lemma {:induction false} PowerGrows(a: nat, b: nat)
    requires a <= b
    ensures Power(a) <= Power(b)
    decreases b
  {
    if a < b {
      PowerGrows(a, b - 1);
    }
  }

  // --------------------------------------------------------------------- codec

  predicate ValidHeader(bytes: Bytes) {
    && |bytes| >= HEADER_BYTES
    && bytes[..3] == MAGIC && bytes[3] == 1 && 1 <= bytes[4] <= 8 && bytes[5] == 0
    && Number(bytes[6..8]) <= MAXIMUM_PROMPT_BYTES
    && Number(bytes[8..16]) != 0 && Number(bytes[16..24]) != 0
  }

  predicate Encodable(frame: WireFrame) {
    && 1 <= frame.kind <= 8 && frame.token.epoch != 0 && frame.token.request != 0
    && |frame.payload| <= MAXIMUM_PROMPT_BYTES && 0 !in frame.payload
  }

  function Header(frame: WireFrame): (bytes: Bytes)
    ensures |bytes| == HEADER_BYTES
  {
    MAGIC + [1, frame.kind, 0] + BigEndian(|frame.payload|, 2)
    + BigEndian(frame.token.epoch as nat, 8) + BigEndian(frame.token.request as nat, 8)
  }

  function Encode(frame: WireFrame): Option<Bytes> {
    if Encodable(frame) then Some(Header(frame) + frame.payload) else None
  }

  function Decode(bytes: Bytes): Option<WireFrame> {
    if !ValidHeader(bytes) || |bytes| != HEADER_BYTES + Number(bytes[6..8]) || 0 in bytes[HEADER_BYTES..] then None
    else
      BigEndianOfNumber(bytes[8..16]);
      BigEndianOfNumber(bytes[16..24]);
      Widths();
      Some(WireFrame(bytes[4], AttemptToken(Number(bytes[8..16]) as uint64, Number(bytes[16..24]) as uint64),
                     bytes[HEADER_BYTES..]))
  }

  // The source's encoder: a zeroed header buffer filled in place, then the payload.
  method EncodeFrame(frame: WireFrame) returns (encoded: Option<Bytes>)
    ensures encoded == Encode(frame)
  {
    if frame.kind < 1 || frame.kind > 8 || frame.token.epoch == 0 || frame.token.request == 0 ||
       |frame.payload| > MAXIMUM_PROMPT_BYTES || 0 in frame.payload {
      return None;
    }
    var bytes := new byte[HEADER_BYTES](_ => 0);
    bytes[0], bytes[1], bytes[2] := MAGIC[0], MAGIC[1], MAGIC[2];
    bytes[3] := 1;
    bytes[4] := frame.kind;
    assert bytes[..6] == MAGIC + [1, frame.kind, 0];
    hide BigEndian;
    Put(bytes, 6, |frame.payload| as uint64, 2);
    Put(bytes, 8, frame.token.epoch, 8);
    Put(bytes, 16, frame.token.request, 8);
    assert bytes[..] == Header(frame);
    encoded := Some(bytes[..] + frame.payload);
  }

  method HeaderIsValid(bytes: Bytes) returns (valid: bool)
    ensures valid <==> ValidHeader(bytes)
  {
    if |bytes| < HEADER_BYTES {
      return false;
    }
    var length := Get(bytes, 6, 2);
    var epoch := Get(bytes, 8, 8);
    var request := Get(bytes, 16, 8);
    valid := bytes[..3] == MAGIC && bytes[3] == 1 && bytes[4] >= 1 && bytes[4] <= 8 && bytes[5] == 0
          && length as nat <= MAXIMUM_PROMPT_BYTES && epoch != 0 && request != 0;
  }

  method DecodeFrame(bytes: Bytes) returns (frame: Option<WireFrame>)
    ensures frame == Decode(bytes)
  {
    var valid := HeaderIsValid(bytes);
    if !valid {
      return None;
    }
    var length := Get(bytes, 6, 2);
    if |bytes| != HEADER_BYTES + length as nat || 0 in bytes[HEADER_BYTES..] {
      return None;
    }
    var epoch := Get(bytes, 8, 8);
    var request := Get(bytes, 16, 8);
    frame := Some(WireFrame(bytes[4], AttemptToken(epoch, request), bytes[HEADER_BYTES..]));
  }

  // The parts of an encoded frame.
  lemma HeaderParts(frame: WireFrame, bytes: Bytes)
    requires bytes == Header(frame) + frame.payload
    ensures bytes[..3] == MAGIC && bytes[3] == 1 && bytes[4] == frame.kind && bytes[5] == 0
    ensures bytes[6..8] == BigEndian(|frame.payload|, 2)
    ensures bytes[8..16] == BigEndian(frame.token.epoch as nat, 8)
    ensures bytes[16..24] == BigEndian(frame.token.request as nat, 8)
    ensures bytes[24..] == frame.payload
  {
    hide BigEndian;
  }

  // The two length bytes as the source reads them.
  lemma NumberOfTwo(bytes: Bytes)
    requires |bytes| == 2
    ensures Number(bytes) == bytes[0] as nat * 256 + bytes[1] as nat
  {
    assert bytes[..1] == [bytes[0]];
    assert Number([bytes[0]]) == bytes[0] as nat;
  }

  // The number eight bytes spell, the first one counting most.
  function Spelled(b: Bytes): int
    requires |b| == 8
  {
    b[0] as int * 0x100_0000_0000_0000 + b[1] as int * 0x1_0000_0000_0000 + b[2] as int * 0x100_0000_0000
    + b[3] as int * 0x1_0000_0000 + b[4] as int * 0x100_0000 + b[5] as int * 0x1_0000 + b[6] as int * 0x100
    + b[7] as int
  }

  lemma NumberSpelled(b: Bytes)
    requires |b| == 8
    ensures Number(b) == Spelled(b)
  {
    NumberOfFour(b[..4]);
    assert b[..5][..4] == b[..4] && b[..6][..5] == b[..5] && b[..7][..6] == b[..6] && b[..7] == b[..|b| - 1];
    NumberStep(b[..5]);
    NumberStep(b[..6]);
    NumberStep(b[..7]);
    NumberStep(b);
    hide Number;
  }

  lemma NumberOfFour(b: Bytes)
    requires |b| == 4
    ensures Number(b) == b[0] as int * 0x100_0000 + b[1] as int * 0x1_0000 + b[2] as int * 0x100 + b[3] as int
  {
    hide Number;
    assert b[..1][..0] == [] && b[..2][..1] == b[..1] && b[..3][..2] == b[..2] && b[..3] == b[..|b| - 1];
    NumberStep([]);
    NumberStep(b[..1]);
    NumberStep(b[..2]);
    NumberStep(b[..3]);
    NumberStep(b);
  }

  // The wire format, byte by byte.
  lemma EncodedBytes(frame: WireFrame)
    ensures Encode(frame).Some? <==>
      && 1 <= frame.kind <= 8 && frame.token.epoch != 0 && frame.token.request != 0
      && |frame.payload| <= 4096 && forall b :: b in frame.payload ==> b != 0
    ensures Encode(frame).Some? ==>
      var bytes := Encode(frame).value;
      && |bytes| == 24 + |frame.payload| && bytes[24..] == frame.payload
      && bytes[..6] == [81, 76, 65, 1, frame.kind, 0]
      && bytes[6] as int * 256 + bytes[7] as int == |frame.payload|
      && Spelled(bytes[8..16]) == frame.token.epoch as int
      && Spelled(bytes[16..24]) == frame.token.request as int
  {
    if Encode(frame).Some? {
      var bytes := Encode(frame).value;
      HeaderParts(frame, bytes);
      EncodedNumbers(frame);
      NumberSpelled(bytes[8..16]);
      NumberSpelled(bytes[16..24]);
      NumberOfTwo(bytes[6..8]);
      hide Number, BigEndian, Header, Spelled;
      assert bytes[..6] == bytes[..3] + [bytes[3], bytes[4], bytes[5]];
    }
  }

  lemma EncodedNumbers(frame: WireFrame)
    requires |frame.payload| <= MAXIMUM_PROMPT_BYTES
    ensures Number(BigEndian(|frame.payload|, 2)) == |frame.payload|
    ensures Number(BigEndian(frame.token.epoch as nat, 8)) == frame.token.epoch as nat
    ensures Number(BigEndian(frame.token.request as nat, 8)) == frame.token.request as nat
  {
    Widths();
    NumberOfBigEndian(|frame.payload|, 2);
    NumberOfBigEndian(frame.token.epoch as nat, 8);
    NumberOfBigEndian(frame.token.request as nat, 8);
  }

  // A frame decodes to what was encoded.
  lemma DecodeEncode(frame: WireFrame)
    requires Encodable(frame)
    ensures Decode(Encode(frame).value) == Some(frame)
  {
    var bytes := Encode(frame).value;
    HeaderParts(frame, bytes);
    EncodedNumbers(frame);
    hide BigEndian, Number, Header;
  }

  // Exactly the encodings decode: the wire format has one form for each frame.
  lemma DecodesIffEncoded(bytes: Bytes, frame: WireFrame)
    ensures Decode(bytes) == Some(frame) <==> Encode(frame) == Some(bytes)
  {
    if Encodable(frame) {
      DecodeEncode(frame);
    }
    if Decode(bytes) == Some(frame) {
      Reencode(bytes);
    }
  }

  lemma Reencode(bytes: Bytes)
    requires Decode(bytes).Some?
    ensures Encode(Decode(bytes).value) == Some(bytes)
  {
    var frame := Decode(bytes).value;
    BigEndianOfNumber(bytes[6..8]);
    BigEndianOfNumber(bytes[8..16]);
    BigEndianOfNumber(bytes[16..24]);
    hide BigEndian, Number;
    assert bytes ==
      bytes[..3] + [bytes[3], bytes[4], bytes[5]] + bytes[6..8] + bytes[8..16] + bytes[16..24] + bytes[24..];
  }

  // ---------------------------------------------------------------- deframing

  // The frames cut off the front of a buffer, what is left, and whether framing gave up.
  datatype Framing = Framing(frames: seq<WireFrame>, rest: Bytes, aborted: bool)

  function Deframe(incoming: Bytes): Framing
    decreases |incoming|
  {
    if |incoming| < HEADER_BYTES then Framing([], incoming, false)
    else
      var length := Number(incoming[6..8]);
      if length > MAXIMUM_PROMPT_BYTES then Framing([], incoming, true)
      else if |incoming| < HEADER_BYTES + length then Framing([], incoming, false)
      else
        match Decode(incoming[..HEADER_BYTES + length])
        case None => Framing([], incoming[HEADER_BYTES + length..], true)
        case Some(frame) =>
          var more := Deframe(incoming[HEADER_BYTES + length..]);
          more.(frames := [frame] + more.frames)
  }

  // Framing chunk by chunk, each appended to what the one before left over.
  function Feed(before: Framing, chunk: Bytes): Framing {
    if before.aborted then before
    else
      var d := Deframe(before.rest + chunk);
      d.(frames := before.frames + d.frames)
  }

  function FeedAll(chunks: seq<Bytes>): Framing {
    if chunks == [] then Framing([], [], false)
    else Feed(FeedAll(chunks[..|chunks| - 1]), chunks[|chunks| - 1])
  }

  function Joined(chunks: seq<Bytes>): Bytes {
    if chunks == [] then [] else Joined(chunks[..|chunks| - 1]) + chunks[|chunks| - 1]
  }

  ghost predicate AllEncodable(frames: seq<WireFrame>) {
    forall f :: f in frames ==> Encodable(f)
  }

  ghost function EncodeAll(frames: seq<WireFrame>): Bytes
    requires AllEncodable(frames)
  {
    if frames == [] then [] else Encode(frames[0]).value + EncodeAll(frames[1..])
  }

  // What does not abort leaves less than one maximal frame behind.
  lemma {:induction false} RestIsShort(incoming: Bytes)
    ensures !Deframe(incoming).aborted ==> |Deframe(incoming).rest| < MAXIMUM_FRAME_BYTES
    decreases |incoming|
  {
    if |incoming| >= HEADER_BYTES {
      var length := Number(incoming[6..8]);
      if length <= MAXIMUM_PROMPT_BYTES && |incoming| >= HEADER_BYTES + length {
        RestIsShort(incoming[HEADER_BYTES + length..]);
      }
    }
  }

  // Deframe, one frame further.
  lemma CutOne(incoming: Bytes)
    requires |incoming| >= HEADER_BYTES
    ensures var length, d := Number(incoming[6..8]), Deframe(incoming);
      if length > MAXIMUM_PROMPT_BYTES then d == Framing([], incoming, true)
      else if |incoming| < HEADER_BYTES + length then d == Framing([], incoming, false)
      else
        var rest := incoming[HEADER_BYTES + length..];
        match Decode(incoming[..HEADER_BYTES + length])
        case None => d == Framing([], rest, true)
        case Some(frame) => d == Deframe(rest).(frames := [frame] + Deframe(rest).frames)
  {
  }

  lemma DeframeShort(incoming: Bytes)
    ensures |incoming| < HEADER_BYTES ==> Deframe(incoming) == Framing([], incoming, false)
  {
  }

  // More bytes behind a buffer change neither the frames already cut nor an abort.
  lemma {:induction false} DeframeMore(a: Bytes, b: Bytes)
    ensures var d, whole := Deframe(a), Deframe(a + b);
      if d.aborted then whole.aborted && whole.frames == d.frames
      else
        var tail := Deframe(d.rest + b);
        whole == Framing(d.frames + tail.frames, tail.rest, tail.aborted)
    decreases |a|
  {
    hide Deframe, Decode, Number;
    var whole := a + b;
    if |a| < HEADER_BYTES {
      DeframeShort(a);
    } else {
      CutOne(a);
      CutOne(whole);
      assert whole[6..8] == a[6..8];
      var total := HEADER_BYTES + Number(a[6..8]);
      if Number(a[6..8]) <= MAXIMUM_PROMPT_BYTES && |a| >= total {
        assert whole[..total] == a[..total];
        assert whole[total..] == a[total..] + b;
        DeframeMore(a[total..], b);
      }
    }
  }

  // The frames extracted, and whether framing aborts, depend on the bytes alone and not on
  // how they were cut into chunks.
  lemma {:induction false} ChunkingDoesNotMatter(chunks: seq<Bytes>)
    ensures var fed, whole := FeedAll(chunks), Deframe(Joined(chunks));
      && fed.frames == whole.frames && fed.aborted == whole.aborted
      && (!fed.aborted ==> fed.rest == whole.rest && |fed.rest| < MAXIMUM_FRAME_BYTES)
  {
    if chunks != [] {
      var init, last := chunks[..|chunks| - 1], chunks[|chunks| - 1];
      ChunkingDoesNotMatter(init);
      hide Deframe;
      DeframeMore(Joined(init), last);
      RestIsShort(Joined(chunks));
    }
  }

  lemma {:induction false} DeframeEncoded(frames: seq<WireFrame>)
    requires AllEncodable(frames)
    ensures Deframe(EncodeAll(frames)) == Framing(frames, [], false)
  {
    if frames != [] {
      var first, rest := frames[0], EncodeAll(frames[1..]);
      DeframeEncoded(frames[1..]);
      DeframeOne(first, rest);
      assert frames == [first] + frames[1..];
    }
  }

  lemma DeframeOne(frame: WireFrame, rest: Bytes)
    requires Encodable(frame)
    ensures var d := Deframe(rest);
      Deframe(Encode(frame).value + rest) == d.(frames := [frame] + d.frames)
  {
    var bytes := Encode(frame).value;
    var incoming := bytes + rest;
    DecodeEncode(frame);
    HeaderParts(frame, bytes);
    EncodedNumbers(frame);
    assert incoming[6..8] == bytes[6..8];
    assert incoming[..|bytes|] == bytes && incoming[|bytes|..] == rest;
    hide BigEndian, Number, Header, Decode;
  }

  // Any list of frames, encoded one after another and cut anywhere, comes back as it was.
  lemma FramesRoundTrip(frames: seq<WireFrame>, chunks: seq<Bytes>)
    requires AllEncodable(frames)
    requires Joined(chunks) == EncodeAll(frames)
    ensures FeedAll(chunks) == Framing(frames, [], false)
  {
    ChunkingDoesNotMatter(chunks);
    DeframeEncoded(frames);
  }

  lemma EncodeAllCons(frame: WireFrame, more: seq<WireFrame>)
    requires Encodable(frame) && AllEncodable(more)
    ensures AllEncodable([frame] + more)
    ensures EncodeAll([frame] + more) == Encode(frame).value + EncodeAll(more)
  {
    assert ([frame] + more)[1..] == more;
  }

  // Deframing either takes nothing or cuts one frame off the front.
  lemma DeframeStep(incoming: Bytes)
    ensures (exists frame, n: nat :: CutsOne(incoming, frame, n)) ||
            (var d := Deframe(incoming); d.frames == [] && (d.aborted || d.rest == incoming))
  {
    if |incoming| >= HEADER_BYTES {
      var total := HEADER_BYTES + Number(incoming[6..8]);
      if |incoming| >= total && Decode(incoming[..total]).Some? {
        Reencode(incoming[..total]);
        hide Decode, Encode, Number;
        assert total > HEADER_BYTES + MAXIMUM_PROMPT_BYTES || CutsOne(incoming, Decode(incoming[..total]).value, total);
      }
    }
  }

  ghost predicate CutsOne(incoming: Bytes, frame: WireFrame, n: nat) {
    && 0 < n <= |incoming| && Encode(frame) == Some(incoming[..n])
    && Deframe(incoming) == var more := Deframe(incoming[n..]); more.(frames := [frame] + more.frames)
  }

  // Conversely, bytes that do not abort are the encodings of the frames extracted followed by
  // the rest.
  lemma {:induction false} ReencodeFrames(incoming: Bytes)
    ensures AllEncodable(Deframe(incoming).frames)
    ensures !Deframe(incoming).aborted ==>
              incoming == EncodeAll(Deframe(incoming).frames) + Deframe(incoming).rest
    decreases |incoming|
  {
    DeframeStep(incoming);
    hide Decode, Deframe;
    if frame, n: nat :| CutsOne(incoming, frame, n) {
      ReencodeFrames(incoming[n..]);
      EncodeAllCons(frame, Deframe(incoming[n..]).frames);
      hide Encodable, AllEncodable, EncodeAll;
      assert incoming == incoming[..n] + incoming[n..];
    }
  }
}
