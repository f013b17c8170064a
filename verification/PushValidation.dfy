/**
 * Validation of a pushed or pulled batch of commits: chain shape, ancestry,
 * required blobs, retractions and namespace deltas.
 */
module PushValidation {
  import opened Ledger
  import opened Namespaces

  // ---------------------------------------------------------------------------
  // Chain shape and ancestry
  // ---------------------------------------------------------------------------

  datatype ChainFault = Unreadable | EmptyCommit | NotContiguous | PreviousMismatch

  datatype PushError =
    | BadChain(idx: nat, fault: ChainFault)
    | WrongNextT
    | HeadMismatch
    | MissingBlob(id: Cid)
    | NamespaceConflict(idx: nat)
    | BadRetraction(idx: nat)
    | Refused(idx: nat)

  /** Some parent reference of `child` carries the digest of `prev` (the codec is not compared). */
  predicate LinksTo(child: Commit, prev: Commit) {
    exists k | 0 <= k < |child.parents| :: child.parents[k].digest == CommitBlob(prev)
  }

  /** What is wrong with blob `i`, looking back at its predecessor only. */
  function FaultAt(blobs: seq<Blob>, i: nat): Option<ChainFault>
    requires i < |blobs|
  {
    if blobs[i].OpaqueBlob? then Some(Unreadable)
    else if blobs[i].commit.flakes == [] then Some(EmptyCommit)
    else if i == 0 || blobs[i - 1].OpaqueBlob? then None
    else if blobs[i].commit.t != blobs[i - 1].commit.t + 1 then Some(NotContiguous)
    else if !LinksTo(blobs[i].commit, blobs[i - 1].commit) then Some(PreviousMismatch)
    else None
  }

  /** Commit `i` is one step after its predecessor in t and linked to it. */
  ghost predicate Follows(cs: seq<Commit>, i: nat)
    requires 0 < i < |cs|
  {
    cs[i].t == cs[i - 1].t + 1 && LinksTo(cs[i], cs[i - 1])
  }

  /** Non-empty commits, each following its predecessor. */
  ghost predicate ChainValid(cs: seq<Commit>) {
    && (forall i | 0 <= i < |cs| :: cs[i].flakes != [])
    && (forall i | 0 < i < |cs| :: Follows(cs, i))
  }

  predicate AllCommits(blobs: seq<Blob>) {
    forall i | 0 <= i < |blobs| :: blobs[i].CommitBlob?
  }

  function CommitsOf(blobs: seq<Blob>): (cs: seq<Commit>)
    requires AllCommits(blobs)
    ensures |cs| == |blobs| && forall i | 0 <= i < |cs| :: blobs[i] == CommitBlob(cs[i])
  {
    seq(|blobs|, i requires 0 <= i < |blobs| => blobs[i].commit)
  }

  /** The blobs of a valid chain. */
  ghost predicate ValidBlobs(blobs: seq<Blob>) {
    AllCommits(blobs) && ChainValid(CommitsOf(blobs))
  }

  /**
   * `decode_and_validate_commit_chain`: accepts exactly the valid chains, returns their commits in
   * order, and otherwise reports the first offending blob and its fault.
   */
  method DecodeAndValidateChain(blobs: seq<Blob>) returns (r: Result<seq<Commit>, PushError>)
    ensures r.Ok? <==> ValidBlobs(blobs)
    ensures r.Ok? ==> r.value == CommitsOf(blobs)
    ensures r.Err? ==>
      && r.error.BadChain? && r.error.idx < |blobs|
      && FaultAt(blobs, r.error.idx) == Some(r.error.fault)
      && forall i | 0 <= i < r.error.idx :: FaultAt(blobs, i).None?
  {
    FaultlessIffChain(blobs);
    var out: seq<Commit> := [];
    var prevT: Option<int> := None;
    var prevDigest: Option<Blob> := None;
    for i := 0 to |blobs|
      invariant |out| == i
      invariant forall k | 0 <= k < i :: blobs[k] == CommitBlob(out[k])
      invariant forall k | 0 <= k < i :: FaultAt(blobs, k).None?
      invariant prevT == if i == 0 then None else Some(out[i - 1].t)
      invariant prevDigest == if i == 0 then None else Some(CommitBlob(out[i - 1]))
    {
      var parsed := ReadCommit(blobs[i]);
      if parsed.None? { return Err(BadChain(i, Unreadable)); }
      var commit := parsed.value;
      if commit.flakes == [] { return Err(BadChain(i, EmptyCommit)); }
      if prevT.Some? && commit.t != prevT.value + 1 {
        assert FaultAt(blobs, i) == Some(NotContiguous);
        return Err(BadChain(i, NotContiguous));
      }
      if prevDigest.Some? {
        if !exists k | 0 <= k < |commit.parents| :: commit.parents[k].digest == prevDigest.value {
          assert FaultAt(blobs, i) == Some(PreviousMismatch);
          return Err(BadChain(i, PreviousMismatch));
        }
      }
      prevT := Some(commit.t);
      prevDigest := Some(blobs[i]);
      out := out + [commit];
    }
    assert out == CommitsOf(blobs);
    return Ok(out);
  }

  /** Looking back one commit at a time finds every fault there is. */
  lemma FaultlessIffChain(blobs: seq<Blob>)
    ensures ValidBlobs(blobs) <==> forall i | 0 <= i < |blobs| :: FaultAt(blobs, i).None?
  {
    if forall i | 0 <= i < |blobs| :: FaultAt(blobs, i).None? {
      forall i | 0 <= i < |blobs| ensures blobs[i].CommitBlob? { assert FaultAt(blobs, i).None?; }
      var cs := CommitsOf(blobs);
      forall i | 0 <= i < |cs|
        ensures cs[i].flakes != []
        ensures i > 0 ==> Follows(cs, i)
      {
        assert FaultAt(blobs, i).None?;
      }
    } else if ValidBlobs(blobs) {
      forall i | 0 <= i < |blobs| ensures FaultAt(blobs, i).None? {
        assert i > 0 ==> Follows(CommitsOf(blobs), i);
      }
      assert false;
    }
  }

  /** `preflight_strict_next_t_and_prev`. */
  function Preflight(current: RefValue, first: Commit): Option<PushError> {
    if first.t != current.t + 1 then Some(WrongNextT)
    else if current.id.Some? then
      if current.id.value in first.parents then None else Some(HeadMismatch)
    else if first.parents != [] then Some(HeadMismatch)
    else None
  }

  /** The txn blobs a batch refers to. */
  function RequiredTxns(cs: seq<Commit>): (req: set<Cid>)
    ensures forall id :: id in req <==> exists i | 0 <= i < |cs| :: cs[i].txn == Some(id)
  {
    set i | 0 <= i < |cs| && cs[i].txn.Some? :: cs[i].txn.value
  }

  /** `validate_required_blobs` together with the codec and digest checks made before each write. */
  ghost predicate BlobsProvided(cs: seq<Commit>, provided: map<Cid, Blob>) {
    forall id | id in RequiredTxns(cs) ::
      id in provided && id.codec == TxnCodec && Verify(id, provided[id])
  }

  /** Everything push and incremental import check before the first write. */
  ghost predicate BatchAccepted(current: RefValue, cs: seq<Commit>, provided: map<Cid, Blob>) {
    && cs != []
    && ChainValid(cs)
    && Preflight(current, cs[0]).None?
    && BlobsProvided(cs, provided)
  }

  /** Commit `i` carries on from the one before it: t grows by one and some parent has its digest. */
  ghost predicate CarriesOn(cs: seq<Commit>, i: nat)
    requires 0 < i < |cs|
  {
    && cs[i].t == cs[i - 1].t + 1
    && exists k :: 0 <= k < |cs[i].parents| && cs[i].parents[k].digest == CommitBlob(cs[i - 1])
  }

  /** The txn blob that commit `i` refers to is provided under its codec and digest. */
  ghost predicate TxnProvided(cs: seq<Commit>, provided: map<Cid, Blob>, i: nat)
    requires i < |cs|
  {
    cs[i].txn.Some? ==>
      var id := cs[i].txn.value;
      id in provided && id.codec == TxnCodec && provided[id] == id.digest
  }

  /**
   * What acceptance amounts to. The first commit is one past the current t and has the current head
   * among its parents, which may be several, or no parent on an unborn ledger; every later one
   * carries on from its predecessor; none is empty; and every txn blob is there.
   */
  lemma AcceptedIff(current: RefValue, cs: seq<Commit>, provided: map<Cid, Blob>)
    ensures BatchAccepted(current, cs, provided) <==>
      && cs != [] && (forall i | 0 <= i < |cs| :: cs[i].flakes != [])
      && cs[0].t == current.t + 1
      && (if current.id.Some? then exists k :: 0 <= k < |cs[0].parents| && cs[0].parents[k] == current.id.value
          else cs[0].parents == [])
      && (forall i | 0 < i < |cs| :: CarriesOn(cs, i))
      && (forall i | 0 <= i < |cs| :: TxnProvided(cs, provided, i))
  {
    assert (forall i | 0 < i < |cs| :: CarriesOn(cs, i)) <==> forall i | 0 < i < |cs| :: Follows(cs, i) by {
      forall i | 0 < i < |cs| ensures CarriesOn(cs, i) <==> Follows(cs, i) {
      }
    }
    if forall i | 0 <= i < |cs| :: TxnProvided(cs, provided, i) {
      forall id | id in RequiredTxns(cs) ensures id in provided && id.codec == TxnCodec && Verify(id, provided[id]) {
        var i :| 0 <= i < |cs| && cs[i].txn == Some(id);
        assert TxnProvided(cs, provided, i);
      }
    }
    if BlobsProvided(cs, provided) {
      forall i | 0 <= i < |cs| ensures TxnProvided(cs, provided, i) {
        if cs[i].txn.Some? { assert cs[i].txn.value in RequiredTxns(cs); }
      }
    }
  }

  // ---------------------------------------------------------------------------
  // Retractions against the evolving log
  // ---------------------------------------------------------------------------

  /** A flake as the log records it, stamped with its commit's t. */
  datatype Entry = Entry(fact: Fact, t: int, op: bool)

  function Stamp(t: int, fs: seq<Flake>): (es: seq<Entry>)
    ensures |es| == |fs|
    ensures forall i | 0 <= i < |fs| :: es[i] == Entry(fs[i].fact, t, fs[i].op)
  {
    seq(|fs|, i requires 0 <= i < |fs| => Entry(fs[i].fact, t, fs[i].op))
  }

  /** Entry `i` is the first listed among the latest entries about `fact` up to `toT`. */
  ghost predicate LatestAt(log: seq<Entry>, fact: Fact, toT: int, i: nat) {
    && i < |log|
    && log[i].fact == fact && log[i].t <= toT
    && (forall j | 0 <= j < |log| && log[j].fact == fact && log[j].t <= toT :: log[j].t <= log[i].t)
    && (forall j | 0 <= j < i && log[j].fact == fact && log[j].t <= toT :: log[j].t < log[i].t)
  }

  ghost predicate Asserted(log: seq<Entry>, fact: Fact, toT: int) {
    exists i: nat :: LatestAt(log, fact, toT, i) && log[i].op
  }

  /** The range read that backs the check: same graph, subject, predicate, object, datatype. */
  predicate RangeMatches(e: Entry, target: Fact, toT: int) {
    && e.fact.g == target.g && e.fact.s == target.s && e.fact.p == target.p
    && e.fact.o == target.o && e.fact.dt == target.dt && e.t <= toT
  }

  /** `is_currently_asserted`: scan the range, keep the strictly latest exact match. */
  method IsCurrentlyAsserted(log: seq<Entry>, target: Fact, toT: int) returns (r: bool)
    ensures r <==> Asserted(log, target, toT)
  {
    var lastT: Option<int> := None;
    var lastOp := false;
    ghost var at: nat := 0;
    for i := 0 to |log|
      invariant lastT.None? ==> forall j | 0 <= j < i :: !(log[j].fact == target && log[j].t <= toT)
      invariant lastT.Some? ==> LatestAt(log[..i], target, toT, at) && log[at].t == lastT.value && log[at].op == lastOp
    {
      var f := log[i];
      if RangeMatches(f, target, toT) {
        if f.fact.g == target.g && f.fact.m == target.m {
          if lastT.None? || f.t > lastT.value {
            lastT := Some(f.t);
            lastOp := f.op;
            at := i;
          }
        }
      }
    }
    assert log[..|log|] == log;
    r := lastT.Some? && lastOp;
    if lastT.Some? {
      LatestUnique(log, target, toT, at);
    }
  }

  lemma LatestUnique(log: seq<Entry>, fact: Fact, toT: int, i: nat)
    requires LatestAt(log, fact, toT, i)
    ensures forall k: nat :: LatestAt(log, fact, toT, k) ==> k == i
  {
  }

  ghost predicate RetractionsExist(log: seq<Entry>, fs: seq<Flake>, toT: int) {
    forall k | 0 <= k < |fs| && !fs[k].op :: Asserted(log, fs[k].fact, toT)
  }

  ghost predicate RetractsExisting(log: seq<Entry>, fs: seq<Flake>, toT: int, k: nat)
    requires k < |fs|
  {
    !fs[k].op ==> Asserted(log, fs[k].fact, toT)
  }

  lemma RetractionsExistIff(log: seq<Entry>, fs: seq<Flake>, toT: int)
    ensures RetractionsExist(log, fs, toT) <==> forall k | 0 <= k < |fs| :: RetractsExisting(log, fs, toT, k)
  {
    if forall k | 0 <= k < |fs| :: RetractsExisting(log, fs, toT, k) {
      forall k | 0 <= k < |fs| && !fs[k].op ensures Asserted(log, fs[k].fact, toT) {
        assert RetractsExisting(log, fs, toT, k);
      }
    }
  }

  /** `assert_retractions_exist`. */
  method AssertRetractionsExist(log: seq<Entry>, fs: seq<Flake>, toT: int) returns (ok: bool)
    ensures ok <==> RetractionsExist(log, fs, toT)
  {
    for k := 0 to |fs|
      invariant forall j | 0 <= j < k :: RetractsExisting(log, fs, toT, j)
    {
      if !fs[k].op {
        var there := IsCurrentlyAsserted(log, fs[k].fact, toT);
        assert there <==> RetractsExisting(log, fs, toT, k);
        if !there {
          RetractionsExistIff(log, fs, toT);
          return false;
        }
      }
    }
    RetractionsExistIff(log, fs, toT);
    return true;
  }

  // ---------------------------------------------------------------------------
  // Validating a whole push batch
  // ---------------------------------------------------------------------------

  /** The flakes a commit contributes: its own, then the metadata flakes derived from it. */
  function AllFlakes(c: Commit, meta: Commit -> seq<Flake>): seq<Flake> {
    c.flakes + meta(c)
  }

  /** The log after the first commits of a batch. */
  function LogAfter(base: seq<Entry>, cs: seq<Commit>, meta: Commit -> seq<Flake>): seq<Entry> {
    if cs == [] then base
    else LogAfter(base, cs[..|cs| - 1], meta) + Stamp(cs[|cs| - 1].t, AllFlakes(cs[|cs| - 1], meta))
  }

  function Deltas(cs: seq<Commit>): (ds: seq<NsTable>)
    ensures |ds| == |cs| && forall i | 0 <= i < |cs| :: ds[i] == cs[i].nsDelta
  {
    seq(|cs|, i requires 0 <= i < |cs| => cs[i].nsDelta)
  }

  function MaxT(a: int, b: int): int { if a > b then a else b }

  /** The t each commit is validated at: the later of the base and the commit before it. */
  ghost function CurrentT(baseT: int, cs: seq<Commit>): int {
    if cs == [] then baseT else MaxT(CurrentT(baseT, cs[..|cs| - 1]), cs[|cs| - 1].t)
  }

  /** Commit `i` retracts only facts asserted in the base plus the commits before it. */
  ghost predicate RetractionsOk(baseT: int, base: seq<Entry>, cs: seq<Commit>, meta: Commit -> seq<Flake>, i: nat)
    requires i < |cs|
  {
    RetractionsExist(LogAfter(base, cs[..i], meta), cs[i].flakes, CurrentT(baseT, cs[..i]))
  }

  /** The verdict of policy, shape and split-mode checks on a commit after the earlier ones of a batch. */
  type Verdict = (seq<Commit>, Commit) -> bool

  predicate AllowedAt(allowed: Verdict, cs: seq<Commit>, i: nat)
    requires i < |cs|
  {
    allowed(cs[..i], cs[i])
  }

  ghost predicate CommitOk(baseT: int, base: seq<Entry>, cs: seq<Commit>, meta: Commit -> seq<Flake>,
                           allowed: Verdict, i: nat)
    requires i < |cs|
  {
    RetractionsOk(baseT, base, cs, meta, i) && AllowedAt(allowed, cs, i)
  }

  ghost predicate PushAccepted(baseT: int, base: seq<Entry>, ns: NsTable, cs: seq<Commit>, meta: Commit -> seq<Flake>,
                               allowed: Verdict) {
    && Sequential(ns, Deltas(cs)).Some?
    && forall i | 0 <= i < |cs| :: CommitOk(baseT, base, cs, meta, allowed, i)
  }

  lemma LogAfterNext(base: seq<Entry>, cs: seq<Commit>, meta: Commit -> seq<Flake>, i: nat, baseT: int)
    requires i < |cs|
    ensures LogAfter(base, cs[..i + 1], meta) ==
      LogAfter(base, cs[..i], meta) + Stamp(cs[i].t, AllFlakes(cs[i], meta))
    ensures CurrentT(baseT, cs[..i + 1]) == MaxT(CurrentT(baseT, cs[..i]), cs[i].t)
  {
    assert cs[..i + 1][..i] == cs[..i];
  }

  lemma DeltaNext(ns: NsTable, cs: seq<Commit>, i: nat, table: NsTable)
    requires i < |cs| && Sequential(ns, Deltas(cs)[..i]) == Some(table)
    ensures Compatible(table, cs[i].nsDelta) ==> Sequential(ns, Deltas(cs)[..i + 1]) == Some(table + cs[i].nsDelta)
    ensures !Compatible(table, cs[i].nsDelta) ==> Sequential(ns, Deltas(cs)).None?
  {
    var ds := Deltas(cs);
    assert ds[..i + 1] == ds[..i] + [ds[i]];
    SequentialSnoc(ns, ds[..i], ds[i]);
    if Sequential(ns, ds).Some? { SequentialPrefix(ns, ds, i + 1); }
  }

  /**
   * The validation loop of `prepare_push`: namespaces, then retractions, then the other checks,
   * then extend the evolving log with the commit's own and derived flakes.
   */
  method ValidatePush(baseT: int, base: seq<Entry>, ns: NsTable, cs: seq<Commit>, meta: Commit -> seq<Flake>,
                      allowed: Verdict)
    returns (r: Result<(NsTable, seq<Entry>), PushError>)
    requires OneToOne(ns)
    ensures r.Ok? <==> PushAccepted(baseT, base, ns, cs, meta, allowed)
    ensures r.Ok? ==> Sequential(ns, Deltas(cs)) == Some(r.value.0) && r.value.1 == LogAfter(base, cs, meta)
  {
    var table, log, currentT := ns, base, baseT;
    for i := 0 to |cs|
      invariant OneToOne(table) && Sequential(ns, Deltas(cs)[..i]) == Some(table)
      invariant log == LogAfter(base, cs[..i], meta) && currentT == CurrentT(baseT, cs[..i])
      invariant forall j | 0 <= j < i :: CommitOk(baseT, base, cs, meta, allowed, j)
    {
      DeltaNext(ns, cs, i, table);
      LogAfterNext(base, cs, meta, i, baseT);
      var merged := MergeDelta(table, cs[i].nsDelta);
      if merged.None? { return Err(NamespaceConflict(i)); }
      table := merged.value;
      var ok := AssertRetractionsExist(log, cs[i].flakes, currentT);
      assert CommitOk(baseT, base, cs, meta, allowed, i) <==> ok && AllowedAt(allowed, cs, i);
      if !ok { return Err(BadRetraction(i)); }
      if !AllowedAt(allowed, cs, i) { return Err(Refused(i)); }
      log := log + Stamp(cs[i].t, AllFlakes(cs[i], meta));
      currentT := MaxT(currentT, cs[i].t);
    }
    assert Deltas(cs)[..|cs|] == Deltas(cs) && cs[..|cs|] == cs;
    return Ok((table, log));
  }

  /** Every entry of the log beyond the base comes from a commit, stamped with its t. */
  lemma {:induction false} LogEntrySource(base: seq<Entry>, cs: seq<Commit>, meta: Commit -> seq<Flake>, e: nat)
    returns (k: int)
    requires e < |LogAfter(base, cs, meta)|
    ensures k < |cs|
    ensures k < 0 ==> LogAfter(base, cs, meta)[e] in base
    ensures k >= 0 ==>
      var x := LogAfter(base, cs, meta)[e];
      x.t == cs[k].t && Flake(x.fact, x.op) in AllFlakes(cs[k], meta)
  {
    if cs == [] {
      k := -1;
    } else {
      var n := |cs| - 1;
      var before := LogAfter(base, cs[..n], meta);
      if e < |before| {
        k := LogEntrySource(base, cs[..n], meta, e);
      } else {
        k := n;
        var fs := AllFlakes(cs[n], meta);
        assert LogAfter(base, cs, meta)[e] == Stamp(cs[n].t, fs)[e - |before|];
        assert fs[e - |before|] in fs;
      }
    }
  }

  /** A commit's own flakes are in the log from then on. */
  lemma {:induction false} FlakeIsLogged(base: seq<Entry>, cs: seq<Commit>, meta: Commit -> seq<Flake>, i: nat,
                                         f: Flake)
    requires i < |cs| && f in cs[i].flakes
    ensures Entry(f.fact, cs[i].t, f.op) in LogAfter(base, cs, meta)
  {
    var n := |cs| - 1;
    if i == n {
      var k :| 0 <= k < |cs[n].flakes| && cs[n].flakes[k] == f;
      var fs := AllFlakes(cs[n], meta);
      assert fs[k] == f && Stamp(cs[n].t, fs)[k] in Stamp(cs[n].t, fs);
    } else {
      FlakeIsLogged(base, cs[..n], meta, i, f);
    }
  }

  /** In a contiguous batch, t grows with position. */
  lemma {:induction false} ChainTs(cs: seq<Commit>, i: nat, j: nat)
    requires ChainValid(cs) && i <= j < |cs|
    ensures cs[j].t == cs[i].t + (j - i)
    decreases j - i
  {
    if i < j {
      ChainTs(cs, i, j - 1);
      assert Follows(cs, j);
    }
  }

  lemma {:induction false} CurrentTBound(baseT: int, cs: seq<Commit>, k: nat)
    requires k < |cs|
    ensures cs[k].t <= CurrentT(baseT, cs)
  {
    if k < |cs| - 1 { CurrentTBound(baseT, cs[..|cs| - 1], k); }
  }

  /**
   * No double retraction: in an accepted batch on a base older than the batch, two commits that
   * both retract a fact have an assertion of it from the first up to just before the second.
   */
  lemma NoDoubleRetraction(baseT: int, base: seq<Entry>, ns: NsTable, cs: seq<Commit>, meta: Commit -> seq<Flake>,
                           allowed: Verdict, i: nat, j: nat, fact: Fact)
    returns (k: nat)
    requires ChainValid(cs) && PushAccepted(baseT, base, ns, cs, meta, allowed)
    requires forall e | e in base :: e.t <= baseT
    requires cs != [] && baseT < cs[0].t
    requires i < j < |cs|
    requires Flake(fact, false) in cs[i].flakes && Flake(fact, false) in cs[j].flakes
    ensures i <= k < j && Flake(fact, true) in AllFlakes(cs[k], meta)
  {
    assert CommitOk(baseT, base, cs, meta, allowed, j);
    var pre, toT := cs[..j], CurrentT(baseT, cs[..j]);
    var log := LogAfter(base, pre, meta);
    var at: nat :| LatestAt(log, fact, toT, at) && log[at].op;
    FlakeIsLogged(base, pre, meta, i, Flake(fact, false));
    CurrentTBound(baseT, pre, i);
    var r :| 0 <= r < |log| && log[r] == Entry(fact, cs[i].t, false);
    var s := LogEntrySource(base, pre, meta, at);
    ChainTs(cs, 0, i);
    if s < i && s >= 0 { ChainTs(cs, s, i); }
    k := s;
  }

  // ---------------------------------------------------------------------------
  // Which facts are there to retract
  // ---------------------------------------------------------------------------

  /** What the flakes say of a fact: the operation of the first that is about it. */
  function Says(fs: seq<Flake>, fact: Fact): Option<bool> {
    if fs == [] then None else if fs[0].fact == fact then Some(fs[0].op) else Says(fs[1..], fact)
  }

  /**
   * The fact is asserted after the commits: the last of them that mentions it, in its own flakes or
   * in those derived from it, asserts it, or none does and it was asserted in the base.
   */
  ghost predicate Live(baseT: int, base: seq<Entry>, cs: seq<Commit>, meta: Commit -> seq<Flake>, fact: Fact) {
    if cs == [] then Asserted(base, fact, baseT)
    else
      var last := cs[|cs| - 1];
      match Says(last.flakes + meta(last), fact)
      case Some(op) => op
      case None => Live(baseT, base, cs[..|cs| - 1], meta, fact)
  }

  /** A batch after an older base: t grows from commit to commit. */
  ghost predicate Newer(baseT: int, base: seq<Entry>, cs: seq<Commit>) {
    && (forall e | e in base :: e.t <= baseT)
    && (forall i | 0 <= i < |cs| :: cs[i].t == cs[0].t + i)
    && (cs != [] ==> baseT < cs[0].t)
  }

  lemma {:induction false} SaysWhere(fs: seq<Flake>, fact: Fact)
    ensures var op := Says(fs, fact);
      && (op.None? ==> forall k | 0 <= k < |fs| :: fs[k].fact != fact)
      && (op.Some? ==> exists k ::
            0 <= k < |fs| && fs[k] == Flake(fact, op.value) && forall j | 0 <= j < k :: fs[j].fact != fact)
  {
    if fs != [] {
      if fs[0].fact == fact {
        assert fs[0] == Flake(fact, fs[0].op);
      } else {
        SaysWhere(fs[1..], fact);
        assert forall k | 0 < k < |fs| :: fs[k] == fs[1..][k - 1];
        if Says(fs, fact).Some? {
          var op := Says(fs, fact).value;
          var k :|
            && 0 <= k < |fs[1..]| && fs[1..][k] == Flake(fact, op)
            && forall j | 0 <= j < k :: fs[1..][j].fact != fact;
          assert fs[k + 1] == Flake(fact, op);
        }
      }
    }
  }

  lemma {:induction false} LogIsOld(baseT: int, base: seq<Entry>, cs: seq<Commit>, meta: Commit -> seq<Flake>)
    requires Newer(baseT, base, cs)
    ensures forall e | e in LogAfter(base, cs, meta) :: e.t <= CurrentT(baseT, cs)
    ensures CurrentT(baseT, cs) == if cs == [] then baseT else cs[|cs| - 1].t
  {
    if cs != [] {
      var n := |cs| - 1;
      NewerPrefix(baseT, base, cs);
      LogIsOld(baseT, base, cs[..n], meta);
    }
  }

  lemma NewerPrefix(baseT: int, base: seq<Entry>, cs: seq<Commit>)
    requires Newer(baseT, base, cs) && cs != []
    ensures Newer(baseT, base, cs[..|cs| - 1])
    ensures |cs| > 1 ==> cs[|cs| - 2].t < cs[|cs| - 1].t
  {
  }

  /** Newer entries decide if they mention the fact, and change nothing if they do not. */
  lemma AssertedAppend(log: seq<Entry>, t0: int, t: int, fs: seq<Flake>, fact: Fact)
    requires t0 < t && forall e | e in log :: e.t <= t0
    ensures Asserted(log + Stamp(t, fs), fact, t) <==>
      match Says(fs, fact)
      case Some(op) => op
      case None => Asserted(log, fact, t0)
  {
    SaysWhere(fs, fact);
    var all := log + Stamp(t, fs);
    if Says(fs, fact).Some? {
      var op := Says(fs, fact).value;
      var k :| 0 <= k < |fs| && fs[k] == Flake(fact, op) && forall j | 0 <= j < k :: fs[j].fact != fact;
      assert all[|log| + k] == Entry(fact, t, op);
      assert LatestAt(all, fact, t, |log| + k);
      LatestUnique(all, fact, t, |log| + k);
    } else {
      forall i: nat ensures LatestAt(all, fact, t, i) <==> LatestAt(log, fact, t0, i) {
        LatestBelow(log, t0, t, fs, fact, i);
      }
      if Asserted(log, fact, t0) {
        var i: nat :| LatestAt(log, fact, t0, i) && log[i].op;
        assert all[i].op;
      }
    }
  }

  lemma LatestBelow(log: seq<Entry>, t0: int, t: int, fs: seq<Flake>, fact: Fact, i: nat)
    requires t0 < t && forall e | e in log :: e.t <= t0
    requires forall k | 0 <= k < |fs| :: fs[k].fact != fact
    ensures LatestAt(log + Stamp(t, fs), fact, t, i) <==> LatestAt(log, fact, t0, i)
  {
    var all := log + Stamp(t, fs);
    assert forall j | |log| <= j < |all| :: all[j].fact != fact;
    assert forall j | 0 <= j < |log| :: all[j] == log[j] && log[j] in log;
  }

  lemma {:induction false} AssertedIsLive(baseT: int, base: seq<Entry>, cs: seq<Commit>, meta: Commit -> seq<Flake>,
                                          fact: Fact)
    requires Newer(baseT, base, cs)
    ensures Asserted(LogAfter(base, cs, meta), fact, CurrentT(baseT, cs)) <==> Live(baseT, base, cs, meta, fact)
  {
    LogIsOld(baseT, base, cs, meta);
    if cs != [] {
      var n := |cs| - 1;
      NewerPrefix(baseT, base, cs);
      LogIsOld(baseT, base, cs[..n], meta);
      AssertedIsLive(baseT, base, cs[..n], meta, fact);
      AssertedAppend(LogAfter(base, cs[..n], meta), CurrentT(baseT, cs[..n]), cs[n].t, cs[n].flakes + meta(cs[n]),
                     fact);
    }
  }

  /**
   * For a contiguous batch on an older base: a commit passes the retraction check exactly when every
   * fact it retracts is asserted by what was there and the commits before it say.
   */
  lemma RetractionsOkIff(baseT: int, base: seq<Entry>, cs: seq<Commit>, meta: Commit -> seq<Flake>, j: nat)
    requires ChainValid(cs) && j < |cs| && baseT < cs[0].t && forall e | e in base :: e.t <= baseT
    ensures RetractionsOk(baseT, base, cs, meta, j) <==>
      forall k | 0 <= k < |cs[j].flakes| && !cs[j].flakes[k].op ::
        Live(baseT, base, cs[..j], meta, cs[j].flakes[k].fact)
  {
    forall i | 0 <= i < j ensures cs[i].t == cs[0].t + i { ChainTs(cs, 0, i); }
    forall fact ensures Asserted(LogAfter(base, cs[..j], meta), fact, CurrentT(baseT, cs[..j])) <==>
        Live(baseT, base, cs[..j], meta, fact)
    {
      AssertedIsLive(baseT, base, cs[..j], meta, fact);
    }
  }
}
