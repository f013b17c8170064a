/**
 * Restore: decode a pack out of a growing buffer, hand each object to a bounded pool of concurrent
 * writes, and point the new ledger at its commit head only when everything has been written.
 */
module Restore {
  import opened Ledger
  import opened Octets
  import opened PackCodec
  import opened PackStream

  const MAX_WRITES := 32
  const MAX_BYTES := 512 * 1024 * 1024
  const MAX_PAYLOAD := 1024 * 1024 * 1024

  datatype RestoreError = Refused(why: StreamError) | WriteFailed(failed: Object) | BadHead

  /** The reads of a source up to end of file, which is the first empty read. */
  function Received(chunks: seq<Bytes>): Bytes {
    if chunks == [] || chunks[0] == [] then [] else chunks[0] + Received(chunks[1..])
  }

  function Bytesize(os: seq<Object>): nat {
    if os == [] then 0 else |os[0].payload| + Bytesize(os[1..])
  }

  lemma {:induction false} BytesizeWithout(os: seq<Object>, k: nat)
    requires k < |os|
    ensures Bytesize(os[..k] + os[k + 1..]) == Bytesize(os) - |os[k].payload|
  {
    var without := os[..k] + os[k + 1..];
    if k > 0 {
      BytesizeWithout(os[1..], k - 1);
      assert without[1..] == os[1..][..k - 1] + os[1..][k..];
    } else {
      assert without == os[1..];
    }
  }

  lemma {:induction false} BytesizeAppend(os: seq<Object>, o: Object)
    ensures Bytesize(os + [o]) == Bytesize(os) + |o.payload|
  {
    if os != [] {
      BytesizeAppend(os[1..], o);
      assert (os + [o])[1..] == os[1..] + [o];
    }
  }

  /** The commit head a manifest names, if it parses and its object is in the archive. */
  function HeadOf(m: Manifest, present: set<ObjectId>, parseId: string -> Option<ObjectId>): Option<(ObjectId, int)> {
    if m.commitHead.None? then None
    else
      var id := parseId(m.commitHead.value);
      if id.None? || id.value !in present then None
      else Some((id.value, if m.commitT.Some? then m.commitT.value else 0))
  }

  /** One of the objects has this id. */
  ghost predicate Contains(os: seq<Object>, id: ObjectId) {
    exists o :: o in os && o.id == id
  }

  /**
   * The reader's state agrees with the whole stream: before the preamble is stripped nothing has
   * been used, afterwards what is buffered and what is to come drain to the same result.
   */
  ghost predicate Agrees(p: Parsers, whole: Bytes, stripped: bool, buffer: Bytes, more: Bytes, s: Session) {
    if stripped then
      && ReadPreamble(whole).Ok?
      && Drain(p, whole[|PREAMBLE|..], MAX_PAYLOAD, START) == Drain(p, buffer + more, MAX_PAYLOAD, s)
    else
      s == START && whole == buffer + more
  }

  lemma AgreesStripped(p: Parsers, whole: Bytes, buffer: Bytes, more: Bytes, s: Session)
    requires Agrees(p, whole, false, buffer, more, s) && |buffer| >= |PREAMBLE|
    ensures ReadPreamble(buffer).Ok? ==> Agrees(p, whole, true, buffer[|PREAMBLE|..], more, s)
    ensures ReadPreamble(buffer).Err? ==>
      DecodeAll(p, whole, MAX_PAYLOAD) == Err(BadPreamble(ReadPreamble(buffer).error))
  {
    PreambleStable(buffer, more);
    assert whole[|PREAMBLE|..] == buffer[|PREAMBLE|..] + more;
  }

  lemma AgreesWhole(p: Parsers, whole: Bytes, buffer: Bytes, more: Bytes, s: Session)
    requires Agrees(p, whole, true, buffer, more, s)
    ensures DecodeAll(p, whole, MAX_PAYLOAD) == Finish(Drain(p, buffer + more, MAX_PAYLOAD, s).result)
  {
  }

  lemma AgreesRead(p: Parsers, whole: Bytes, stripped: bool, buffer: Bytes, chunk: Bytes, more: Bytes, s: Session)
    requires Agrees(p, whole, stripped, buffer, chunk + more, s)
    ensures Agrees(p, whole, stripped, buffer + chunk, more, s)
  {
    assert buffer + (chunk + more) == (buffer + chunk) + more;
  }

  /** What one decoded frame leaves to drain. */
  lemma AgreesNext(p: Parsers, whole: Bytes, buffer: Bytes, more: Bytes, s: Session, f: Frame, n: nat, s': Session)
    requires Agrees(p, whole, true, buffer, more, s)
    requires DecodeFrame(p, buffer, MAX_PAYLOAD) == Ok((f, n)) && Apply(s, f) == Ok(s') && !s'.ended
    ensures 0 < n <= |buffer| && Agrees(p, whole, true, buffer[n..], more, s')
  {
    DecodeStable(p, buffer, more, MAX_PAYLOAD);
    assert (buffer + more)[n..] == buffer[n..] + more;
  }

  /** What a frame that ends or is refused makes of the whole stream. */
  lemma AgreesLast(p: Parsers, whole: Bytes, buffer: Bytes, more: Bytes, s: Session, f: Frame, n: nat)
    requires Agrees(p, whole, true, buffer, more, s) && DecodeFrame(p, buffer, MAX_PAYLOAD) == Ok((f, n))
    requires Apply(s, f).Err? || Apply(s, f).value.ended
    ensures DecodeAll(p, whole, MAX_PAYLOAD) == Finish(Apply(s, f))
  {
    DecodeStable(p, buffer, more, MAX_PAYLOAD);
    AgreesWhole(p, whole, buffer, more, s);
  }

  lemma AgreesBad(p: Parsers, whole: Bytes, buffer: Bytes, more: Bytes, s: Session)
    requires Agrees(p, whole, true, buffer, more, s)
    requires DecodeFrame(p, buffer, MAX_PAYLOAD).Err? && !NeedsMore(DecodeFrame(p, buffer, MAX_PAYLOAD))
    ensures DecodeAll(p, whole, MAX_PAYLOAD) == Err(BadFrame(DecodeFrame(p, buffer, MAX_PAYLOAD).error))
  {
    DecodeStable(p, buffer, more, MAX_PAYLOAD);
    AgreesWhole(p, whole, buffer, more, s);
  }

  /** Objects of the session are objects of the stream, if it is a pack. */
  lemma AgreesKeeps(p: Parsers, whole: Bytes, buffer: Bytes, more: Bytes, s: Session, o: Object)
    requires Agrees(p, whole, true, buffer, more, s) && o in s.objects && DecodeAll(p, whole, MAX_PAYLOAD).Ok?
    ensures o in DecodeAll(p, whole, MAX_PAYLOAD).value.objects
  {
    AgreesWhole(p, whole, buffer, more, s);
    DrainKeeps(p, buffer + more, MAX_PAYLOAD, s);
  }

  lemma AgreesAtEnd(p: Parsers, whole: Bytes, stripped: bool, buffer: Bytes, s: Session)
    requires Agrees(p, whole, stripped, buffer, [], s)
    requires if stripped then NeedsMore(DecodeFrame(p, buffer, MAX_PAYLOAD)) else |buffer| < |PREAMBLE|
    ensures DecodeAll(p, whole, MAX_PAYLOAD) == Finish(Ok(s))
  {
    assert buffer + [] == buffer;
  }

  /** The writes of one restore; `writable` says which objects verify and reach storage. */
  class Restorer {
    const writable: Object -> bool
    var inFlight: seq<Object>
    var bytesInFlight: nat
    var stored: set<Object>
    var head: Option<(ObjectId, int)>

    constructor (writable: Object -> bool)
      ensures InBudget() && inFlight == [] && stored == {} && head == None && this.writable == writable
    {
      this.writable := writable;
      inFlight, bytesInFlight, stored, head := [], 0, {}, None;
    }

    /** The pool's budget. */
    ghost predicate InBudget()
      reads this
    {
      && bytesInFlight == Bytesize(inFlight)
      && |inFlight| <= MAX_WRITES
      && (bytesInFlight > MAX_BYTES ==> |inFlight| == 1)
    }

    /** Every dispatched object is in flight or stored, and nothing else is stored. */
    ghost predicate Tracks(dispatched: seq<Object>)
      reads this
    {
      && (forall o | o in dispatched :: o in inFlight || o in stored)
      && (forall o | o in inFlight || o in stored :: o in dispatched)
      && (forall o | o in stored :: writable(o))
    }

    /** Await the next write to finish, whichever it is. */
    method Reap(ghost dispatched: seq<Object>) returns (failed: Option<Object>)
      requires InBudget() && Tracks(dispatched) && inFlight != []
      modifies this
      ensures head == old(head)
      ensures failed.Some? ==> failed.value in dispatched && !writable(failed.value)
      ensures failed.None? ==> InBudget() && Tracks(dispatched) && |inFlight| == |old(inFlight)| - 1
    {
      var k :| 0 <= k < |inFlight|;
      var o := inFlight[k];
      BytesizeWithout(inFlight, k);
      inFlight := inFlight[..k] + inFlight[k + 1..];
      if !writable(o) { return Some(o); }
      bytesInFlight := bytesInFlight - |o.payload|;
      stored := stored + {o};
      return None;
    }

    /** Wait until the object fits both budgets, then start writing it. */
    method Admit(o: Object, ghost dispatched: seq<Object>)
      returns (failed: Option<Object>)
      requires InBudget() && Tracks(dispatched)
      modifies this
      ensures head == old(head)
      ensures failed.Some? ==> failed.value in dispatched && !writable(failed.value)
      ensures failed.None? ==> InBudget() && Tracks(dispatched + [o]) && o in inFlight
      ensures failed.None? ==>
        |inFlight| <= 32 && (|inFlight| > 1 ==> Bytesize(inFlight) <= 512 * 1024 * 1024)
    {
      while |inFlight| >= MAX_WRITES || (bytesInFlight + |o.payload| > MAX_BYTES && inFlight != [])
        invariant InBudget() && Tracks(dispatched) && head == old(head)
        decreases |inFlight|
      {
        failed := Reap(dispatched);
        if failed.Some? { return; }
      }
      BytesizeAppend(inFlight, o);
      bytesInFlight := bytesInFlight + |o.payload|;
      inFlight := inFlight + [o];
      return None;
    }

    /** Wait for every write still in flight. */
    method Flush(ghost dispatched: seq<Object>) returns (failed: Option<Object>)
      requires InBudget() && Tracks(dispatched)
      modifies this
      ensures head == old(head)
      ensures failed.Some? ==> failed.value in dispatched && !writable(failed.value)
      ensures failed.None? ==> inFlight == [] && Tracks(dispatched)
    {
      while inFlight != []
        invariant InBudget() && Tracks(dispatched) && head == old(head)
        decreases |inFlight|
      {
        failed := Reap(dispatched);
        if failed.Some? { return; }
      }
      return None;
    }

    /** One decoded frame: a Data frame also enters the pool. */
    method Dispatch(s: Session, f: Frame) returns (r: Result<Session, RestoreError>)
      requires InBudget() && Tracks(s.objects)
      modifies this
      ensures head == old(head)
      ensures r.Ok? ==> Apply(s, f) == Ok(r.value) && InBudget() && Tracks(r.value.objects)
      ensures r.Err? ==> !r.error.BadHead?
      ensures r.Err? && r.error.Refused? ==> Apply(s, f) == Err(r.error.why)
      ensures r.Err? && r.error.WriteFailed? ==> r.error.failed in s.objects && !writable(r.error.failed)
    {
      var next := Apply(s, f);
      if next.Err? { return Err(Refused(next.error)); }
      if f.Data? {
        var failed := Admit(Object(f.id, f.payload), s.objects);
        if failed.Some? { return Err(WriteFailed(failed.value)); }
      }
      return Ok(next.value);
    }

    /** Drain every complete frame in the buffer; `more` is what the source has yet to deliver. */
    method DrainBuffer(p: Parsers, buffer: Bytes, s: Session, ghost more: Bytes, ghost whole: Bytes)
      returns (r: Result<Session, RestoreError>, rest: Bytes)
      requires InBudget() && Tracks(s.objects) && !s.ended && Agrees(p, whole, true, buffer, more, s)
      modifies this
      ensures head == old(head)
      ensures r.Ok? ==> InBudget() && Tracks(r.value.objects)
      ensures r.Ok? && r.value.ended ==> DecodeAll(p, whole, MAX_PAYLOAD) == Finish(Ok(r.value))
      ensures r.Ok? && !r.value.ended ==>
        Agrees(p, whole, true, rest, more, r.value) && NeedsMore(DecodeFrame(p, rest, MAX_PAYLOAD))
      ensures r.Err? ==> Explains(r.error, DecodeAll(p, whole, MAX_PAYLOAD))
    {
      var session := s;
      rest := buffer;
      while true
        invariant InBudget() && Tracks(session.objects) && !session.ended && head == old(head)
        invariant Agrees(p, whole, true, rest, more, session)
        decreases |rest|
      {
        var d := DecodeFrame(p, rest, MAX_PAYLOAD);
        if d.Err? {
          if d.error.Incomplete? { return Ok(session), rest; }
          AgreesBad(p, whole, rest, more, session);
          return Err(Refused(BadFrame(d.error))), rest;
        }
        var (frame, consumed) := d.value;
        r := Dispatch(session, frame);
        if r.Err? && r.error.WriteFailed? {
          if DecodeAll(p, whole, MAX_PAYLOAD).Ok? { AgreesKeeps(p, whole, rest, more, session, r.error.failed); }
          return;
        }
        if r.Err? || r.value.ended {
          AgreesLast(p, whole, rest, more, session, frame, consumed);
          return;
        }
        AgreesNext(p, whole, rest, more, session, frame, consumed, r.value);
        session := r.value;
        rest := rest[consumed..];
      }
    }

    /** A refusal is the whole stream's; a failed write is of an object the stream holds. */
    ghost predicate Explains(e: RestoreError, whole: Result<Session, StreamError>) {
      match e
      case Refused(why) => whole == Err(why)
      case WriteFailed(o) => !writable(o) && (whole.Ok? ==> o in whole.value.objects)
      case BadHead => false
    }

    /** Read, strip the preamble, drain frames; stop at End, at end of file or at a refusal. */
    method ReadAll(p: Parsers, chunks: seq<Bytes>) returns (r: Result<Session, RestoreError>)
      requires InBudget() && Tracks([])
      modifies this
      ensures head == old(head)
      ensures r.Ok? ==> InBudget() && Tracks(r.value.objects)
      ensures r.Ok? ==> DecodeAll(p, Received(chunks), MAX_PAYLOAD) == Finish(Ok(r.value))
      ensures r.Err? ==> Explains(r.error, DecodeAll(p, Received(chunks), MAX_PAYLOAD))
    {
      var buffer: Bytes := [];
      var session := START;
      var stripped := false;
      var i := 0;
      ghost var whole := Received(chunks);
      while true
        invariant i <= |chunks| && InBudget() && Tracks(session.objects) && !session.ended && head == old(head)
        invariant Agrees(p, whole, stripped, buffer, Received(chunks[i..]), session)
        decreases |chunks| - i
      {
        ghost var more := Received(chunks[i..]);
        if !stripped && |buffer| >= |PREAMBLE| {
          AgreesStripped(p, whole, buffer, more, session);
          var preamble := ReadPreamble(buffer);
          if preamble.Err? { return Err(Refused(BadPreamble(preamble.error))); }
          buffer := buffer[|PREAMBLE|..];
          stripped := true;
        }
        if stripped {
          var drained;
          drained, buffer := DrainBuffer(p, buffer, session, more, whole);
          if drained.Err? || drained.value.ended { return drained; }
          session := drained.value;
        }
        if i == |chunks| || chunks[i] == [] {
          AgreesAtEnd(p, whole, stripped, buffer, session);
          return Ok(session);
        }
        AgreesRead(p, whole, stripped, buffer, chunks[i], Received(chunks[i + 1..]), session);
        buffer := buffer + chunks[i];
        i := i + 1;
      }
    }

    /**
     * The whole restore. Whatever the reads are cut into, it succeeds exactly when the stream
     * decoded at once is a pack, every object of it can be written and its manifest names a commit
     * head that parses and is the id of one of them; then all of them are stored before the head is
     * set to that id, with the manifest's t or 0. Otherwise the head is untouched.
     */
    method Run(p: Parsers, chunks: seq<Bytes>, parseId: string -> Option<ObjectId>)
      returns (r: Result<(ObjectId, int), RestoreError>)
      requires InBudget() && inFlight == [] && stored == {}
      modifies this
      ensures var whole := DecodeAll(p, Received(chunks), MAX_PAYLOAD);
        && (r.Ok? <==>
            && whole.Ok? && (forall o | o in whole.value.objects :: writable(o))
            && var m := whole.value.manifest.value;
               m.commitHead.Some? && parseId(m.commitHead.value).Some?
               && Contains(whole.value.objects, parseId(m.commitHead.value).value))
        && (r.Ok? ==>
            && inFlight == [] && (forall o :: o in stored <==> o in whole.value.objects)
            && head == Some(r.value) && (exists o :: o in stored && o.id == r.value.0)
            && var m := whole.value.manifest.value;
               Some(r.value.0) == parseId(m.commitHead.value)
               && r.value.1 == if m.commitT.Some? then m.commitT.value else 0)
        && (r.Err? ==> head == old(head))
        && (r.Err? && r.error.Refused? ==> whole == Err(r.error.why))
    {
      var read := ReadAll(p, chunks);
      if read.Err? { return Err(read.error); }
      var session := read.value;
      var failed := Flush(session.objects);
      if failed.Some? { return Err(WriteFailed(failed.value)); }
      var done := Finish(Ok(session));
      if done.Err? { return Err(Refused(done.error)); }
      var present := set o | o in stored :: o.id;
      StoredIds(session.objects, stored, present);
      var resolved := HeadOf(session.manifest.value, present, parseId);
      if resolved.None? { return Err(BadHead); }
      head := resolved;
      return Ok(resolved.value);
    }
  }

  lemma StoredIds(os: seq<Object>, stored: set<Object>, present: set<ObjectId>)
    requires (forall o :: o in stored <==> o in os) && present == set o | o in stored :: o.id
    ensures forall id :: id in present <==> Contains(os, id)
    ensures forall id | id in present :: exists o :: o in stored && o.id == id
  {
  }
}
