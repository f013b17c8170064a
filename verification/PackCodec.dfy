/**
 * The `fluree-pack-v1` wire format: preamble, frames, and a decoder that asks for more bytes until
 * a frame is whole. JSON, UTF-8 and content-id parsing are parameters.
 */
module PackCodec {
  import opened Ledger
  import opened Octets

  const PREAMBLE: Bytes := [0x46, 0x50, 0x4B, 0x31, 1]
  const MAX_CID_LEN := 128
  const U16 := 0x1_0000
  const U32 := 0x1_0000_0000

  datatype ObjectId = ObjectId(raw: Bytes)

  /** The fields of a manifest that restore looks at. */
  datatype Manifest = Manifest(phase: Option<string>, commitHead: Option<string>, commitT: Option<int>)

  datatype Frame =
    | Header
    | Data(id: ObjectId, payload: Bytes)
    | ErrorFrame(message: Bytes)
    | ManifestFrame(manifest: Manifest)
    | End

  datatype PackError =
    | Incomplete(need: nat)
    | InvalidMagic
    | UnsupportedVersion(version: Byte)
    | InvalidFrameType(tag: Byte)
    | PayloadTooLarge(size: nat)
    | CidTooLarge(size: nat)
    | InvalidCid
    | InvalidUtf8
    | InvalidJson

  /** The parsers the decoder calls; each may refuse any bytes. */
  datatype Parsers = Parsers(
    header: Bytes -> bool,
    json: Bytes -> Option<Manifest>,
    cid: Bytes -> Option<ObjectId>,
    utf8: Bytes -> bool)

  type Decoded = Result<(Frame, nat), PackError>

  // ---------------------------------------------------------------------------
  // Little-endian lengths
  // ---------------------------------------------------------------------------

  function Le16(data: Bytes, at: nat): (n: nat)
    requires at + 2 <= |data|
    ensures n < U16
  {
    data[at] as int + 0x100 * (data[at + 1] as int)
  }

  function Le32(data: Bytes, at: nat): (n: nat)
    requires at + 4 <= |data|
    ensures n < U32
  {
    data[at] as int + 0x100 * (data[at + 1] as int) + 0x1_0000 * (data[at + 2] as int)
    + 0x100_0000 * (data[at + 3] as int)
  }

  function ToLe16(n: nat): (bs: Bytes)
    requires n < U16
    ensures |bs| == 2 && Le16(bs, 0) == n
  {
    [n % 0x100, n / 0x100]
  }

  function ToLe32(n: nat): (bs: Bytes)
    requires n < U32
    ensures |bs| == 4 && Le32(bs, 0) == n
  {
    var n1 := n / 0x100;
    var n2 := n1 / 0x100;
    [n % 0x100, n1 % 0x100, n2 % 0x100, n2 / 0x100]
  }

  // ---------------------------------------------------------------------------
  // Decoding
  // ---------------------------------------------------------------------------

  /** `read_stream_preamble`. */
  function ReadPreamble(data: Bytes): Result<nat, PackError> {
    if |data| < |PREAMBLE| then Err(Incomplete(|PREAMBLE|))
    else if data[..4] != PREAMBLE[..4] then Err(InvalidMagic)
    else if data[4] != PREAMBLE[4] then Err(UnsupportedVersion(data[4]))
    else Ok(|PREAMBLE|)
  }

  /** A frame that is a type byte, a length and a payload handed to `parse`. */
  function DecodeSized(data: Bytes, max: nat, parse: Bytes -> Result<Frame, PackError>): Decoded {
    if |data| < 5 then Err(Incomplete(5))
    else
      var len := Le32(data, 1);
      if len > max then Err(PayloadTooLarge(len))
      else if |data| < 5 + len then Err(Incomplete(5 + len))
      else
        match parse(data[5..5 + len])
        case Err(e) => Err(e)
        case Ok(frame) => Ok((frame, 5 + len))
  }

  function ParseHeader(p: Parsers): Bytes -> Result<Frame, PackError> {
    (bs: Bytes) => if p.header(bs) then Ok(Header) else Err(InvalidJson)
  }

  function ParseManifest(p: Parsers): Bytes -> Result<Frame, PackError> {
    (bs: Bytes) => if p.json(bs).Some? then Ok(ManifestFrame(p.json(bs).value)) else Err(InvalidJson)
  }

  function ParseError(p: Parsers): Bytes -> Result<Frame, PackError> {
    (bs: Bytes) => if p.utf8(bs) then Ok(ErrorFrame(bs)) else Err(InvalidUtf8)
  }

  /** The id is parsed before the payload length is looked at. */
  function DecodeData(p: Parsers, data: Bytes, max: nat): Decoded {
    if |data| < 3 then Err(Incomplete(3))
    else
      var cidLen := Le16(data, 1);
      var pre := 3 + cidLen + 4;
      if cidLen > MAX_CID_LEN then Err(CidTooLarge(cidLen))
      else if |data| < pre then Err(Incomplete(pre))
      else
        match p.cid(data[3..3 + cidLen])
        case None => Err(InvalidCid)
        case Some(id) =>
          var len := Le32(data, 3 + cidLen);
          if len > max then Err(PayloadTooLarge(len))
          else if |data| < pre + len then Err(Incomplete(pre + len))
          else Ok((Data(id, data[pre..pre + len]), pre + len))
  }

  /** `decode_frame`. */
  function DecodeFrame(p: Parsers, data: Bytes, max: nat): Decoded {
    if data == [] then Err(Incomplete(1))
    else if data[0] == 0x00 then DecodeSized(data, max, ParseHeader(p))
    else if data[0] == 0x01 then DecodeData(p, data, max)
    else if data[0] == 0x02 then DecodeSized(data, max, ParseError(p))
    else if data[0] == 0x03 then DecodeSized(data, max, ParseManifest(p))
    else if data[0] == 0xFF then Ok((End, 1))
    else Err(InvalidFrameType(data[0]))
  }

  /** Byte strings as the format writes lengths: the low byte first. */
  lemma LittleEndian()
    ensures Le16([0x02, 0x01], 0) == 0x0102 && ToLe16(0x0102) == [0x02, 0x01]
    ensures Le32([0x04, 0x03, 0x02, 0x01], 0) == 0x0102_0304 && ToLe32(0x0102_0304) == [0x04, 0x03, 0x02, 0x01]
  {
  }

  /** The tag of each kind of frame. */
  function TagOf(f: Frame): Byte {
    match f
    case Header => 0x00
    case Data(_, _) => 0x01
    case ErrorFrame(_) => 0x02
    case ManifestFrame(_) => 0x03
    case End => 0xFF
  }

  /** `data` from `at` on is a 32-bit length within bounds and that many bytes, ending at `n`. */
  predicate SizedAt(data: Bytes, at: nat, max: nat, n: nat) {
    at + 4 <= n <= |data| && Le32(data, at) == n - at - 4 <= max
  }

  /** What the first `n` bytes must be to decode to the frame. */
  predicate IsFrame(p: Parsers, data: Bytes, max: nat, f: Frame, n: nat) {
    && 1 <= n <= |data| && data[0] == TagOf(f)
    && match f
       case End => n == 1
       case Header => SizedAt(data, 1, max, n) && p.header(data[5..n])
       case ErrorFrame(message) => SizedAt(data, 1, max, n) && message == data[5..n] && p.utf8(message)
       case ManifestFrame(m) => SizedAt(data, 1, max, n) && p.json(data[5..n]) == Some(m)
       case Data(id, payload) =>
         && n >= 3 && var k := 3 + Le16(data, 1);
         && k <= 3 + 128 && SizedAt(data, k, max, n) && p.cid(data[3..k]) == Some(id) && payload == data[k + 4..n]
  }

  /** A frame is decoded exactly from its own bytes. */
  lemma DecodesIff(p: Parsers, data: Bytes, max: nat, f: Frame, n: nat)
    ensures DecodeFrame(p, data, max) == Ok((f, n)) <==> IsFrame(p, data, max, f, n)
  {
  }

  /** What is refused whatever follows: unknown tags, and lengths beyond the limits. */
  lemma RefusedFrames(p: Parsers, data: Bytes, max: nat)
    requires data != []
    ensures DecodeFrame(p, data, max) == Err(InvalidFrameType(data[0])) <==> data[0] !in {0x00, 0x01, 0x02, 0x03, 0xFF}
    ensures data[0] in {0x00, 0x02, 0x03} && |data| >= 5 && Le32(data, 1) > max ==>
      DecodeFrame(p, data, max) == Err(PayloadTooLarge(Le32(data, 1)))
    ensures data[0] == 0x01 && |data| >= 3 && Le16(data, 1) > 128 ==>
      DecodeFrame(p, data, max) == Err(CidTooLarge(Le16(data, 1)))
  {
  }

  predicate NeedsMore(d: Decoded) {
    d.Err? && d.error.Incomplete?
  }

  /** A parser that never asks for more bytes itself. */
  ghost predicate Total(parse: Bytes -> Result<Frame, PackError>) {
    forall bs :: parse(bs).Err? ==> !parse(bs).error.Incomplete?
  }

  lemma SizedStable(data: Bytes, more: Bytes, max: nat, parse: Bytes -> Result<Frame, PackError>)
    requires Total(parse)
    ensures var d := DecodeSized(data, max, parse);
      && (!NeedsMore(d) ==> DecodeSized(data + more, max, parse) == d)
      && (NeedsMore(d) ==> d.error.need > |data|)
      && (d.Ok? ==> 1 <= d.value.1 <= |data|)
  {
    if |data| >= 5 {
      var len := Le32(data, 1);
      assert Le32(data + more, 1) == len;
      if |data| >= 5 + len {
        assert (data + more)[5..5 + len] == data[5..5 + len];
      }
    }
  }

  lemma DataStable(p: Parsers, data: Bytes, more: Bytes, max: nat)
    ensures var d := DecodeData(p, data, max);
      && (!NeedsMore(d) ==> DecodeData(p, data + more, max) == d)
      && (NeedsMore(d) ==> d.error.need > |data|)
      && (d.Ok? ==> 1 <= d.value.1 <= |data|)
  {
    if |data| >= 3 {
      var cidLen := Le16(data, 1);
      assert Le16(data + more, 1) == cidLen;
      var pre := 3 + cidLen + 4;
      if |data| >= pre {
        assert (data + more)[3..3 + cidLen] == data[3..3 + cidLen];
        var len := Le32(data, 3 + cidLen);
        assert Le32(data + more, 3 + cidLen) == len;
        if |data| >= pre + len {
          assert (data + more)[pre..pre + len] == data[pre..pre + len];
        }
      }
    }
  }

  /**
   * The decoder is prefix-stable: on any bytes it either asks for more (than it has), or gives the
   * answer it would give for every extension; a decoded frame consumes at least one byte.
   */
  lemma DecodeStable(p: Parsers, data: Bytes, more: Bytes, max: nat)
    ensures var d := DecodeFrame(p, data, max);
      && (!NeedsMore(d) ==> DecodeFrame(p, data + more, max) == d)
      && (NeedsMore(d) ==> d.error.need > |data|)
      && (d.Ok? ==> 1 <= d.value.1 <= |data|)
  {
    if data != [] {
      assert (data + more)[0] == data[0];
      if data[0] == 0x00 {
        SizedStable(data, more, max, ParseHeader(p));
      } else if data[0] == 0x01 {
        DataStable(p, data, more, max);
      } else if data[0] == 0x02 {
        SizedStable(data, more, max, ParseError(p));
      } else if data[0] == 0x03 {
        SizedStable(data, more, max, ParseManifest(p));
      }
    }
  }

  // ---------------------------------------------------------------------------
  // Encoding
  // ---------------------------------------------------------------------------

  /** The writers of the values a frame carries. */
  datatype Writers = Writers(header: Bytes, json: Manifest -> Bytes)

  function Payload(w: Writers, f: Frame): Bytes {
    match f
    case Header => w.header
    case Data(_, payload) => payload
    case ErrorFrame(message) => message
    case ManifestFrame(m) => w.json(m)
    case End => []
  }

  /** Lengths fit their fields, and what this frame carries is read back as it was written. */
  ghost predicate Encodable(p: Parsers, w: Writers, f: Frame, max: nat) {
    && |Payload(w, f)| <= max < U32
    && (f.Header? ==> p.header(w.header))
    && (f.Data? ==> |f.id.raw| <= MAX_CID_LEN && p.cid(f.id.raw) == Some(f.id))
    && (f.ErrorFrame? ==> p.utf8(f.message))
    && (f.ManifestFrame? ==> p.json(w.json(f.manifest)) == Some(f.manifest))
  }

  function Encode(w: Writers, f: Frame): Bytes
    requires |Payload(w, f)| < U32 && (f.Data? ==> |f.id.raw| <= MAX_CID_LEN)
  {
    var payload := Payload(w, f);
    match f
    case Header => [0x00] + ToLe32(|payload|) + payload
    case Data(id, _) => [0x01] + ToLe16(|id.raw|) + id.raw + ToLe32(|payload|) + payload
    case ErrorFrame(_) => [0x02] + ToLe32(|payload|) + payload
    case ManifestFrame(_) => [0x03] + ToLe32(|payload|) + payload
    case End => [0xFF]
  }

  lemma SizedRoundTrip(tag: Byte, payload: Bytes, max: nat, parse: Bytes -> Result<Frame, PackError>)
    requires |payload| <= max < U32
    ensures var data := [tag] + ToLe32(|payload|) + payload;
      DecodeSized(data, max, parse)
      == match parse(payload) { case Err(e) => Err(e) case Ok(f) => Ok((f, |data|)) }
  {
    var len := ToLe32(|payload|);
    var data := [tag] + len + payload;
    assert data[1] == len[0] && data[2] == len[1] && data[3] == len[2] && data[4] == len[3];
    assert Le32(data, 1) == Le32(len, 0);
    assert data[5..5 + |payload|] == payload;
  }

  lemma DataRoundTrip(p: Parsers, id: ObjectId, payload: Bytes, max: nat)
    requires |payload| <= max < U32 && |id.raw| <= MAX_CID_LEN && p.cid(id.raw) == Some(id)
    ensures var data := [0x01] + ToLe16(|id.raw|) + id.raw + ToLe32(|payload|) + payload;
      DecodeData(p, data, max) == Ok((Data(id, payload), |data|))
  {
    var n, len := ToLe16(|id.raw|), ToLe32(|payload|);
    var data := [0x01] + n + id.raw + len + payload;
    assert data[1] == n[0] && data[2] == n[1];
    assert Le16(data, 1) == Le16(n, 0);
    var at := 3 + |id.raw|;
    assert data[3..at] == id.raw;
    assert data[at] == len[0] && data[at + 1] == len[1] && data[at + 2] == len[2] && data[at + 3] == len[3];
    assert Le32(data, at) == Le32(len, 0);
    assert data[at + 4..at + 4 + |payload|] == payload;
  }

  /** Decoding undoes encoding, whatever follows the frame. */
  lemma RoundTrip(p: Parsers, w: Writers, f: Frame, more: Bytes, max: nat)
    requires Encodable(p, w, f, max)
    ensures DecodeFrame(p, Encode(w, f) + more, max) == Ok((f, |Encode(w, f)|))
  {
    var data := Encode(w, f);
    match f {
      case Header => SizedRoundTrip(0x00, Payload(w, f), max, ParseHeader(p));
      case Data(id, payload) => DataRoundTrip(p, id, payload, max);
      case ErrorFrame(message) => SizedRoundTrip(0x02, Payload(w, f), max, ParseError(p));
      case ManifestFrame(m) => SizedRoundTrip(0x03, Payload(w, f), max, ParseManifest(p));
      case End =>
    }
    assert DecodeFrame(p, data, max) == Ok((f, |data|));
    DecodeStable(p, data, more, max);
  }
}
