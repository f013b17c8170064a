/**
 * What a pack stream means when decoded whole, and that decoding it in pieces means the same.
 */
module PackStream {
  import opened Ledger
  import opened Octets
  import opened PackCodec

  datatype Object = Object(id: ObjectId, payload: Bytes)

  /** What has been read so far: the objects dispatched in order and the manifest to use. */
  datatype Session = Session(sawHeader: bool, objects: seq<Object>, manifest: Option<Manifest>, ended: bool)

  const START := Session(false, [], None, false)

  datatype StreamError =
    | BadPreamble(why: PackError)
    | BadFrame(why: PackError)
    | DuplicateHeader
    | DataBeforeHeader
    | Reported(message: Bytes)
    | NoHeader
    | MissingEnd
    | NoManifest

  /** What one frame does. Only manifests of the nameservice phase are kept, the last one wins. */
  function Apply(s: Session, f: Frame): Result<Session, StreamError> {
    match f
    case Header => if s.sawHeader then Err(DuplicateHeader) else Ok(s.(sawHeader := true))
    case Data(id, payload) =>
      if s.sawHeader then Ok(s.(objects := s.objects + [Object(id, payload)])) else Err(DataBeforeHeader)
    case ManifestFrame(m) => if m.phase == Some("nameservice") then Ok(s.(manifest := Some(m))) else Ok(s)
    case ErrorFrame(message) => Err(Reported(message))
    case End => Ok(s.(ended := true))
  }

  datatype Drained = Drained(result: Result<Session, StreamError>, rest: Bytes)

  /** Every complete frame of `data`, up to End; what is left of an incomplete frame is the rest. */
  function Drain(p: Parsers, data: Bytes, max: nat, s: Session): Drained
    decreases |data|
  {
    match DecodeFrame(p, data, max)
    case Err(e) => if e.Incomplete? then Drained(Ok(s), data) else Drained(Err(BadFrame(e)), data)
    case Ok((frame, consumed)) =>
      var next := Apply(s, frame);
      if next.Err? || next.value.ended then Drained(next, data)
      else
        DecodeStable(p, data, [], max);
        Drain(p, data[consumed..], max, next.value)
  }

  predicate Settled(d: Drained) {
    d.result.Err? || d.result.value.ended
  }

  /** Draining a prefix first and its rest with the remaining bytes later changes nothing. */
  lemma {:induction false} DrainSplit(p: Parsers, data: Bytes, more: Bytes, max: nat, s: Session)
    requires !s.ended
    ensures var d := Drain(p, data, max, s);
      && (Settled(d) ==> Drain(p, data + more, max, s).result == d.result)
      && (!Settled(d) ==> Drain(p, data + more, max, s) == Drain(p, d.rest + more, max, d.result.value))
    decreases |data|
  {
    DecodeStable(p, data, more, max);
    var d := DecodeFrame(p, data, max);
    if d.Ok? {
      var next, consumed := Apply(s, d.value.0), d.value.1;
      if next.Ok? && !next.value.ended {
        DrainSplit(p, data[consumed..], more, max, next.value);
        assert (data + more)[consumed..] == data[consumed..] + more;
      }
    }
  }

  /** Objects once dispatched stay dispatched. */
  lemma {:induction false} DrainKeeps(p: Parsers, data: Bytes, max: nat, s: Session)
    ensures var r := Drain(p, data, max, s).result; r.Ok? ==> s.objects <= r.value.objects
    decreases |data|
  {
    DecodeStable(p, data, [], max);
    var d := DecodeFrame(p, data, max);
    if d.Ok? {
      var next := Apply(s, d.value.0);
      if next.Ok? && !next.value.ended { DrainKeeps(p, data[d.value.1..], max, next.value); }
    }
  }

  lemma PreambleStable(data: Bytes, more: Bytes)
    requires |data| >= |PREAMBLE|
    ensures ReadPreamble(data + more) == ReadPreamble(data)
  {
    assert (data + more)[..4] == data[..4];
  }

  /** The checks made once the stream is over. */
  function Finish(r: Result<Session, StreamError>): Result<Session, StreamError> {
    if r.Err? then r
    else if !r.value.sawHeader then Err(NoHeader)
    else if !r.value.ended then Err(MissingEnd)
    else if r.value.manifest.None? then Err(NoManifest)
    else r
  }

  /** The meaning of a whole stream. A stream too short for a preamble has no frames. */
  function DecodeAll(p: Parsers, bytes: Bytes, max: nat): Result<Session, StreamError> {
    match ReadPreamble(bytes)
    case Err(e) => if e.Incomplete? then Finish(Ok(START)) else Err(BadPreamble(e))
    case Ok(n) => Finish(Drain(p, bytes[|PREAMBLE|..], max, START).result)
  }

  // ---------------------------------------------------------------------------
  // What acceptance implies
  // ---------------------------------------------------------------------------

  /** `data` begins with exactly these frames, back to back. */
  predicate Parses(p: Parsers, data: Bytes, max: nat, fs: seq<Frame>)
    decreases |fs|
  {
    fs == [] ||
    var d := DecodeFrame(p, data, max);
    d.Ok? && d.value.0 == fs[0] && d.value.1 <= |data| && Parses(p, data[d.value.1..], max, fs[1..])
  }

  /** The last frame is the first End. */
  predicate EndsOnce(fs: seq<Frame>) {
    fs != [] && fs[|fs| - 1].End? && forall i | 0 <= i < |fs| - 1 :: !fs[i].End?
  }

  /** The only Header is at `h`, and no Data precedes it. */
  predicate HeaderAt(fs: seq<Frame>, h: nat) {
    && h < |fs| && fs[h].Header?
    && (forall i | 0 <= i < |fs| && fs[i].Header? :: i == h)
    && (forall i | 0 <= i < |fs| && fs[i].Data? :: h < i)
  }

  /** Exactly one Header, before any Data; no Error frame; one End, last. */
  ghost predicate WellFormed(fs: seq<Frame>) {
    && EndsOnce(fs)
    && (forall i | 0 <= i < |fs| :: !fs[i].ErrorFrame?)
    && (exists h: nat :: HeaderAt(fs, h))
  }

  function Objects(fs: seq<Frame>): seq<Object> {
    if fs == [] then []
    else (if fs[0].Data? then [Object(fs[0].id, fs[0].payload)] else []) + Objects(fs[1..])
  }

  /** The objects are those of the Data frames, in their order. */
  lemma {:induction false} ObjectsInOrder(a: seq<Frame>, f: Frame, b: seq<Frame>)
    ensures Objects(a + ([f] + b)) ==
      Objects(a) + ((if f.Data? then [Object(f.id, f.payload)] else []) + Objects(b))
  {
    var here := [f] + b;
    assert here[1..] == b;
    if a == [] {
      assert a + here == here;
    } else {
      ObjectsInOrder(a[1..], f, b);
      assert (a + here)[1..] == a[1..] + here;
      ObjectsAssoc(if a[0].Data? then [Object(a[0].id, a[0].payload)] else [], Objects(a[1..]), Objects(here));
    }
  }

  lemma ObjectsAssoc(a: seq<Object>, b: seq<Object>, c: seq<Object>)
    ensures a + (b + c) == (a + b) + c
  {
  }

  predicate NamesHeads(f: Frame) {
    f.ManifestFrame? && f.manifest.phase == Some("nameservice")
  }

  /** The last nameservice manifest among the frames. */
  function LastManifest(fs: seq<Frame>): Option<Manifest> {
    if fs == [] then None
    else if NamesHeads(fs[|fs| - 1]) then Some(fs[|fs| - 1].manifest)
    else LastManifest(fs[..|fs| - 1])
  }

  /** It is the one after which no other comes, if there is one. */
  lemma {:induction false} LastManifestIff(fs: seq<Frame>, m: Manifest)
    ensures LastManifest(fs) == Some(m) <==>
      exists i :: 0 <= i < |fs| && fs[i] == ManifestFrame(m) && m.phase == Some("nameservice")
        && forall k | i < k < |fs| :: !NamesHeads(fs[k])
  {
    if fs != [] {
      var n := |fs| - 1;
      LastManifestIff(fs[..n], m);
      if NamesHeads(fs[n]) {
        assert fs[n] == ManifestFrame(fs[n].manifest);
      }
      assert forall i | 0 <= i < n :: fs[i] == fs[..n][i];
    }
  }

  /** Frames one after the other, stopping at the first refusal or End. */
  function ApplyAll(s: Session, fs: seq<Frame>): Result<Session, StreamError>
    decreases |fs|
  {
    if fs == [] then Ok(s)
    else
      var next := Apply(s, fs[0]);
      if next.Err? || next.value.ended then next else ApplyAll(next.value, fs[1..])
  }

  lemma EndsOnceTail(fs: seq<Frame>)
    requires EndsOnce(fs) && !fs[0].End?
    ensures EndsOnce(fs[1..])
  {
  }

  /** Draining bytes that hold these frames applies them. */
  lemma {:induction false} DrainApplies(p: Parsers, data: Bytes, max: nat, fs: seq<Frame>, s: Session)
    requires Parses(p, data, max, fs) && EndsOnce(fs) && !s.ended
    ensures Drain(p, data, max, s).result == ApplyAll(s, fs)
    decreases |fs|
  {
    var d := DecodeFrame(p, data, max);
    var next := Apply(s, fs[0]);
    if next.Ok? && !next.value.ended {
      EndsOnceTail(fs);
      DrainApplies(p, data[d.value.1..], max, fs[1..], next.value);
    }
  }

  /** A drain that reaches End read some frames up to it. */
  lemma {:induction false} DrainedFrames(p: Parsers, data: Bytes, max: nat, s: Session) returns (fs: seq<Frame>)
    requires !s.ended && Drain(p, data, max, s).result.Ok? && Drain(p, data, max, s).result.value.ended
    ensures Parses(p, data, max, fs) && EndsOnce(fs)
    decreases |data|
  {
    DecodeStable(p, data, [], max);
    var d := DecodeFrame(p, data, max);
    var frame, rest := d.value.0, data[d.value.1..];
    if frame.End? {
      fs := [frame];
      assert Parses(p, rest, max, fs[1..]);
    } else {
      var tail := DrainedFrames(p, rest, max, Apply(s, frame).value);
      fs := [frame] + tail;
      assert fs[1..] == tail;
    }
  }

  /** No refusal, from a session that has or has not seen its Header. */
  predicate Ordered(fs: seq<Frame>, saw: bool) {
    if fs == [] then true
    else if fs[0].Header? then !saw && Ordered(fs[1..], true)
    else if fs[0].Data? then saw && Ordered(fs[1..], saw)
    else !fs[0].ErrorFrame? && Ordered(fs[1..], saw)
  }

  lemma {:induction false} LastManifestCons(f: Frame, fs: seq<Frame>)
    ensures LastManifest([f] + fs) ==
      if LastManifest(fs).Some? then LastManifest(fs) else if NamesHeads(f) then Some(f.manifest) else None
  {
    var all := [f] + fs;
    if fs == [] {
      assert all == [f];
    } else {
      var shorter := fs[..|fs| - 1];
      LastManifestCons(f, shorter);
      assert all[..|all| - 1] == [f] + shorter;
    }
  }

  /** Applying frames up to End collects the objects in order and the last nameservice manifest. */
  lemma {:induction false} ApplyAllCollects(s: Session, fs: seq<Frame>)
    requires EndsOnce(fs) && !s.ended
    ensures var r := ApplyAll(s, fs);
      && (r.Ok? <==> Ordered(fs, s.sawHeader))
      && (r.Ok? ==>
          && r.value.objects == s.objects + Objects(fs)
          && r.value.manifest == (if LastManifest(fs).Some? then LastManifest(fs) else s.manifest)
          && (r.value.sawHeader <==> s.sawHeader || exists h | 0 <= h < |fs| :: fs[h].Header?)
          && r.value.ended)
    decreases |fs|
  {
    var next := Apply(s, fs[0]);
    assert fs == [fs[0]] + fs[1..];
    LastManifestCons(fs[0], fs[1..]);
    if fs[0].End? {
      assert fs == [End];
    } else if next.Ok? {
      EndsOnceTail(fs);
      ApplyAllCollects(next.value, fs[1..]);
      CollectOne(s, fs);
      HeaderInTail(fs);
    }
  }

  lemma CollectOne(s: Session, fs: seq<Frame>)
    requires fs != [] && !fs[0].End? && Apply(s, fs[0]).Ok?
    ensures Apply(s, fs[0]).value.objects + Objects(fs[1..]) == s.objects + Objects(fs)
  {
    var rest := Objects(fs[1..]);
    if fs[0].Data? {
      var o := [Object(fs[0].id, fs[0].payload)];
      assert Objects(fs) == o + rest;
      assert (s.objects + o) + rest == s.objects + (o + rest);
    } else {
      assert Objects(fs) == [] + rest == rest;
    }
  }

  lemma HeaderInTail(fs: seq<Frame>)
    requires fs != []
    ensures (exists h | 0 <= h < |fs| :: fs[h].Header?)
      <==> fs[0].Header? || exists h | 0 <= h < |fs[1..]| :: fs[1..][h].Header?
  {
    if h :| 0 <= h < |fs| && fs[h].Header? {
      if h > 0 { assert fs[1..][h - 1].Header?; }
    }
    if h :| 0 <= h < |fs[1..]| && fs[1..][h].Header? {
      assert fs[h + 1].Header?;
    }
  }

  /** `Ordered` is the order of a well-formed stream. */
  lemma {:induction false} OrderedAfterHeader(fs: seq<Frame>)
    ensures Ordered(fs, true) <==> forall i | 0 <= i < |fs| :: !fs[i].Header? && !fs[i].ErrorFrame?
  {
    if fs != [] {
      OrderedAfterHeader(fs[1..]);
      assert forall i | 0 < i < |fs| :: fs[i] == fs[1..][i - 1];
    }
  }

  lemma HeaderAtTail(fs: seq<Frame>, h: nat)
    requires fs != [] && !fs[0].Header?
    ensures HeaderAt(fs, h) <==> h > 0 && !fs[0].Data? && HeaderAt(fs[1..], h - 1)
  {
    var tail := fs[1..];
    assert forall i | 0 <= i < |tail| :: tail[i] == fs[i + 1];
    if h > 0 && !fs[0].Data? && HeaderAt(tail, h - 1) {
      forall i | 0 <= i < |fs| && fs[i].Header? ensures i == h { assert tail[i - 1].Header?; }
      forall i | 0 <= i < |fs| && fs[i].Data? ensures h < i { assert tail[i - 1].Data?; }
    }
    if HeaderAt(fs, h) {
      forall i | 0 <= i < |tail| && tail[i].Header? ensures i == h - 1 { assert fs[i + 1].Header?; }
      forall i | 0 <= i < |tail| && tail[i].Data? ensures h - 1 < i { assert fs[i + 1].Data?; }
    }
  }

  lemma {:induction false} OrderedIff(fs: seq<Frame>)
    ensures Ordered(fs, false) && (exists h | 0 <= h < |fs| :: fs[h].Header?)
      <==> (forall i | 0 <= i < |fs| :: !fs[i].ErrorFrame?) && exists h: nat :: HeaderAt(fs, h)
  {
    if fs != [] {
      var tail := fs[1..];
      assert forall i | 0 < i < |fs| :: fs[i] == tail[i - 1];
      HeaderInTail(fs);
      if fs[0].Header? {
        OrderedAfterHeader(tail);
        assert HeaderAt(fs, 0) <==> forall i | 0 <= i < |tail| :: !tail[i].Header?;
        if h: nat :| HeaderAt(fs, h) { assert h == 0; }
      } else {
        OrderedIff(tail);
        forall h: nat ensures HeaderAt(fs, h) <==> h > 0 && !fs[0].Data? && HeaderAt(tail, h - 1) {
          HeaderAtTail(fs, h);
        }
        if h: nat :| HeaderAt(tail, h) { assert HeaderAt(fs, h + 1) <==> !fs[0].Data?; }
        if h: nat :| HeaderAt(fs, h) { assert HeaderAt(tail, h - 1); }
      }
    }
  }

  /** What it takes for a stream to be accepted. */
  ghost predicate IsPack(p: Parsers, bytes: Bytes, max: nat, fs: seq<Frame>) {
    && |bytes| >= |PREAMBLE| && bytes[..|PREAMBLE|] == PREAMBLE
    && Parses(p, bytes[|PREAMBLE|..], max, fs)
    && WellFormed(fs) && LastManifest(fs).Some?
  }

  lemma PreambleIff(bytes: Bytes)
    ensures ReadPreamble(bytes).Ok? <==> |bytes| >= |PREAMBLE| && bytes[..|PREAMBLE|] == PREAMBLE
  {
    if |bytes| >= 5 {
      assert bytes[..5] == bytes[..4] + [bytes[4]];
      assert PREAMBLE == PREAMBLE[..4] + [PREAMBLE[4]];
    }
  }

  /** The frames of an accepted stream settle what is dispatched and which manifest is used. */
  lemma PackMeaning(p: Parsers, bytes: Bytes, max: nat, fs: seq<Frame>)
    requires IsPack(p, bytes, max, fs)
    ensures DecodeAll(p, bytes, max) == Ok(Session(true, Objects(fs), LastManifest(fs), true))
  {
    PreambleIff(bytes);
    OrderedIff(fs);
    DrainApplies(p, bytes[|PREAMBLE|..], max, fs, START);
    ApplyAllCollects(START, fs);
    assert [] + Objects(fs) == Objects(fs);
  }

  /** A stream is accepted exactly when it is a pack; anything may follow its End. */
  lemma AcceptedIff(p: Parsers, bytes: Bytes, max: nat)
    ensures DecodeAll(p, bytes, max).Ok? <==> exists fs :: IsPack(p, bytes, max, fs)
  {
    if fs :| IsPack(p, bytes, max, fs) { PackMeaning(p, bytes, max, fs); }
    if DecodeAll(p, bytes, max).Ok? {
      PreambleIff(bytes);
      var fs := DrainedFrames(p, bytes[|PREAMBLE|..], max, START);
      DrainApplies(p, bytes[|PREAMBLE|..], max, fs, START);
      ApplyAllCollects(START, fs);
      OrderedIff(fs);
      assert IsPack(p, bytes, max, fs);
    }
  }

  // ---------------------------------------------------------------------------
  // Archives
  // ---------------------------------------------------------------------------

  ghost predicate AllEncodable(p: Parsers, w: Writers, fs: seq<Frame>, max: nat) {
    max < U32 && forall i | 0 <= i < |fs| :: Encodable(p, w, fs[i], max)
  }

  ghost function EncodeAll(p: Parsers, w: Writers, fs: seq<Frame>, max: nat): Bytes
    requires AllEncodable(p, w, fs, max)
  {
    if fs == [] then [] else Encode(w, fs[0]) + EncodeAll(p, w, fs[1..], max)
  }

  lemma {:induction false} EncodedParses(p: Parsers, w: Writers, fs: seq<Frame>, max: nat, more: Bytes)
    requires AllEncodable(p, w, fs, max)
    ensures Parses(p, EncodeAll(p, w, fs, max) + more, max, fs)
    decreases |fs|
  {
    if fs != [] {
      var first, rest := Encode(w, fs[0]), EncodeAll(p, w, fs[1..], max);
      RoundTrip(p, w, fs[0], rest + more, max);
      assert EncodeAll(p, w, fs, max) + more == first + (rest + more);
      assert (first + (rest + more))[|first|..] == rest + more;
      EncodedParses(p, w, fs[1..], max, more);
    }
  }

  /** Writing an archive and decoding it gives back its objects and its manifest. */
  lemma ArchiveRoundTrip(p: Parsers, w: Writers, fs: seq<Frame>, max: nat, more: Bytes)
    requires AllEncodable(p, w, fs, max) && WellFormed(fs) && LastManifest(fs).Some?
    ensures DecodeAll(p, PREAMBLE + EncodeAll(p, w, fs, max) + more, max)
      == Ok(Session(true, Objects(fs), LastManifest(fs), true))
  {
    EncodedParses(p, w, fs, max, more);
    AfterPreamble(EncodeAll(p, w, fs, max), more);
    PackMeaning(p, PREAMBLE + EncodeAll(p, w, fs, max) + more, max, fs);
  }

  lemma AfterPreamble(body: Bytes, more: Bytes)
    ensures var bytes := PREAMBLE + body + more;
      bytes[..|PREAMBLE|] == PREAMBLE && bytes[|PREAMBLE|..] == body + more
  {
  }
}
