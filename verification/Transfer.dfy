/**
 * The writers of the publication protocol as the code that runs them: incremental import (and the
 * apply half of push), and interactive transactions. Another process may move the durable head
 * while a call is between its check and its compare-and-set; `racing` says to where.
 */
module Transfer {
  import opened Ledger
  import opened Namespaces
  import opened PushValidation
  import opened Publication

  datatype TransferError =
    | Rejected(why: PushError) | NoCommits | BadTxnBlob(id: Cid) | LostRace(actual: RefValue) | MovedBase
    | NotInstalled

  ghost predicate OnlyAdds(a: map<Cid, Blob>, b: map<Cid, Blob>) {
    forall id | ObjectStored(a, id) :: ObjectStored(b, id)
  }

  /** The durable head when the compare-and-set runs. */
  function HeadAtCas(head: RefValue, racing: Option<RefValue>): RefValue {
    if racing.Some? then racing.value else head
  }

  /** One process's view of a ledger: content store, nameservice record and cached state. */
  class LedgerHandle {
    var store: map<Cid, Blob>
    var head: RefValue
    var cached: LedgerState

    constructor ()
      ensures store == map[] && head == RefValue(None, 0) && cached == GENESIS
    {
      store, head, cached := map[], RefValue(None, 0), GENESIS;
    }

    /**
     * `write_required_blobs`: every referenced txn blob must be provided, carry the txn codec and
     * hash to its id; each is stored as soon as it has been checked.
     */
    method WriteRequiredBlobs(cs: seq<Commit>, provided: map<Cid, Blob>) returns (bad: Option<Cid>)
      modifies this`store
      ensures OnlyAdds(old(store), store)
      ensures bad.None? <==> BlobsProvided(cs, provided)
      ensures bad.None? ==> forall id | id in RequiredTxns(cs) :: ObjectStored(store, id)
    {
      var todo := RequiredTxns(cs);
      ghost var done: set<Cid> := {};
      while todo != {}
        invariant todo + done == RequiredTxns(cs)
        invariant OnlyAdds(old(store), store)
        invariant forall id | id in done ::
          id in provided && id.codec == TxnCodec && Verify(id, provided[id]) && ObjectStored(store, id)
        decreases todo
      {
        var id :| id in todo;
        if id !in provided || id.codec != TxnCodec || !Verify(id, provided[id]) {
          assert id in RequiredTxns(cs);
          return Some(id);
        }
        store := store[id := provided[id]];
        todo := todo - {id};
        done := done + {id};
      }
      return None;
    }

    /** `write_commit_blobs`. */
    method WriteCommitBlobs(cs: seq<Commit>)
      modifies this`store
      ensures OnlyAdds(old(store), store)
      ensures forall i | 0 <= i < |cs| :: ObjectStored(store, CommitCid(cs[i]))
    {
      for i := 0 to |cs|
        invariant OnlyAdds(old(store), store)
        invariant forall k | 0 <= k < i :: ObjectStored(store, CommitCid(cs[k]))
      {
        store := store[CommitCid(cs[i]) := CommitBlob(cs[i])];
      }
    }

    /**
     * `compare_and_set_ref` on the ledger's record, which exists from its creation on: a caller
     * that expects no ref at all always loses.
     */
    method CompareAndSet(expected: Option<RefValue>, next: RefValue) returns (ok: bool)
      modifies this`head
      ensures ok <==> CasUpdates(Some(old(head)), expected, next)
      ensures head == if ok then next else old(head)
    {
      if expected.None? || expected.value.id != head.id || next.t <= head.t { return false; }
      head := next;
      return true;
    }

    /** The checks, writes and compare-and-set that import and push share after validation. */
    method Publish(cs: seq<Commit>, provided: map<Cid, Blob>, racing: Option<RefValue>)
      returns (r: Result<RefValue, TransferError>)
      requires cs != []
      modifies this`store, this`head
      ensures OnlyAdds(old(store), store)
      ensures r.Ok? <==>
        BlobsProvided(cs, provided) && CasUpdates(Some(HeadAtCas(old(head), racing)), Some(old(head)), Tip(cs))
      ensures r.Ok? ==>
        && head == r.value == Tip(cs)
        && forall i | 0 <= i < |cs| :: CommitStored(store, cs[i])
      ensures r.Err? ==>
        && head == HeadAtCas(old(head), if r.error.LostRace? then racing else None)
        && !r.error.NotInstalled?
    {
      var current := head;
      var bad := WriteRequiredBlobs(cs, provided);
      if bad.Some? { return Err(BadTxnBlob(bad.value)); }
      WriteCommitBlobs(cs);
      if racing.Some? { head := racing.value; }
      var won := CompareAndSet(Some(current), Tip(cs));
      if !won { return Err(LostRace(head)); }
      forall i | 0 <= i < |cs| ensures CommitStored(store, cs[i]) {
        if cs[i].txn.Some? { assert cs[i].txn.value in RequiredTxns(cs); }
      }
      return Ok(head);
    }

    /**
     * `import_commits_incremental`, over the cached state and its namespace table. The head moves
     * exactly when the batch is accepted and the race is won, to the last commit, all of them
     * stored. Only then is the bulk namespace union applied: if it conflicts, the call fails with
     * the head moved and the cache left behind. Every other failure changes neither.
     */
    method ImportIncremental(ns: NsTable, blobs: seq<Blob>, provided: map<Cid, Blob>, racing: Option<RefValue>)
      returns (r: Result<RefValue, TransferError>, ns': NsTable)
      requires OneToOne(ns)
      modifies this
      ensures OnlyAdds(old(store), store) && OneToOne(ns')
      ensures ImportPublishes(old(head), blobs, provided, racing) ==>
        var cs := CommitsOf(blobs);
        && head == Tip(cs)
        && (forall i | 0 <= i < |cs| :: CommitStored(store, cs[i]))
        && (if Compatible(ns, FirstWins(Deltas(cs)))
            then r == Ok(head) && cached == InstallBatch(old(cached), cs) && ns' == ns + FirstWins(Deltas(cs))
            else r == Err(NotInstalled) && cached == old(cached) && ns' == ns)
      ensures !ImportPublishes(old(head), blobs, provided, racing) ==>
        && r.Err? && !r.error.NotInstalled?
        && head == HeadAtCas(old(head), if r.error.LostRace? then racing else None)
        && cached == old(cached) && ns' == ns
    {
      ns' := ns;
      if blobs == [] { return Err(NoCommits), ns; }
      var decoded := DecodeAndValidateChain(blobs);
      if decoded.Err? { return Err(Rejected(decoded.error)), ns; }
      var cs := decoded.value;
      AcceptedIffContinues(head, cs, provided);
      var refused := Preflight(head, cs[0]);
      if refused.Some? { return Err(Rejected(refused.value)), ns; }
      r := Publish(cs, provided, racing);
      if r.Err? { return; }
      var merged := MergeDeltasFirstWins(Deltas(cs));
      var table := MergeDelta(ns, merged);
      if table.None? { return Err(NotInstalled), ns; }
      cached := InstallBatch(cached, cs);
      ns' := table.value;
    }

    /**
     * Push, both halves. Beyond what import checks, every commit must fit the namespaces and the
     * facts left by the ones before it, and be allowed by the checks given. For such a batch the
     * bulk union cannot conflict, so a push that moves the head always installs, with the table the
     * commits give one by one.
     */
    method Push(ns: NsTable, meta: Commit -> seq<Flake>, allowed: Verdict, blobs: seq<Blob>,
                provided: map<Cid, Blob>, racing: Option<RefValue>)
      returns (r: Result<RefValue, TransferError>, ns': NsTable)
      requires OneToOne(ns)
      modifies this
      ensures OnlyAdds(old(store), store) && OneToOne(ns')
      ensures r.Ok? <==>
        && ImportPublishes(old(head), blobs, provided, racing)
        && PushAccepted(old(cached).t, LogAfter([], old(cached).log, meta), ns, CommitsOf(blobs), meta, allowed)
      ensures r.Ok? ==>
        var cs := CommitsOf(blobs);
        && head == r.value == Tip(cs)
        && (forall i | 0 <= i < |cs| :: CommitStored(store, cs[i]))
        && cached == InstallBatch(old(cached), cs) && Sequential(ns, Deltas(cs)) == Some(ns')
      ensures r.Err? ==>
        && head == HeadAtCas(old(head), if r.error.LostRace? then racing else None)
        && cached == old(cached) && ns' == ns
    {
      ns' := ns;
      if blobs == [] { return Err(NoCommits), ns; }
      var decoded := DecodeAndValidateChain(blobs);
      if decoded.Err? { return Err(Rejected(decoded.error)), ns; }
      var cs := decoded.value;
      AcceptedIffContinues(head, cs, provided);
      var refused := Preflight(head, cs[0]);
      if refused.Some? { return Err(Rejected(refused.value)), ns; }
      var valid := ValidatePush(cached.t, LogAfter([], cached.log, meta), ns, cs, meta, allowed);
      if valid.Err? { return Err(Rejected(valid.error)), ns; }
      var merged := MergeDeltasFirstWins(Deltas(cs));
      var table := MergeDelta(ns, merged);
      BulkNamespacesAgree(ns, Deltas(cs));
      r := Publish(cs, provided, racing);
      if r.Err? { return; }
      cached := InstallBatch(cached, cs);
      ns' := table.value;
    }
  }

  /**
   * What it takes for a batch to move the head: readable commits, none of them empty, that continue
   * the head, with their txn blobs, and the head still the one it saw.
   */
  ghost predicate ImportPublishes(head: RefValue, blobs: seq<Blob>, provided: map<Cid, Blob>,
                                  racing: Option<RefValue>) {
    && AllCommits(blobs) && blobs != [] && (forall i | 0 <= i < |blobs| :: blobs[i].commit.flakes != [])
    && Continues(head.id, head.t, CommitsOf(blobs)) && BlobsProvided(CommitsOf(blobs), provided)
    && CasUpdates(Some(HeadAtCas(head, racing)), Some(head), Tip(CommitsOf(blobs)))
  }

  /** An open interactive transaction; dropping it rolls it back. */
  class CypherTransaction {
    const base: LedgerState
    var state: LedgerState
    var pending: seq<Commit>
    ghost var stmts: seq<Statement>

    /** The private state is the base plus every statement so far, each commit chained on the last. */
    ghost predicate Valid()
      reads this
    {
      && state == RunAll(base, stmts)
      && state.log == base.log + pending
      && state.t == base.t + |pending| && state.head == HeadAfter(base.head, pending)
      && Continues(base.head, base.t, pending)
      && forall i | 0 <= i < |pending| :: pending[i].txn.None?
    }

    /** BEGIN: pin the cached head. */
    constructor (cached: LedgerState)
      ensures Valid() && base == state == cached && pending == [] && stmts == []
    {
      base, state, pending, stmts := cached, cached, [], [];
    }

    /** Run one write statement against the private state; nothing is published. */
    method Write(stmt: Statement) returns (flakeCount: nat)
      requires Valid()
      modifies this
      ensures Valid() && stmts == old(stmts) + [stmt]
      ensures state == RunStatement(old(state), stmt)
      ensures pending == old(pending) + StatementCommits(old(state), stmt)
      ensures flakeCount == |stmt(old(state)).flakes|
      ensures var change, head := stmt(old(state)), old(state).head;
        if change.flakes == [] then pending == old(pending) && state == old(state)
        else
          && |pending| == |old(pending)| + 1 && old(pending) <= pending
          && Last(pending).flakes == change.flakes && Last(pending).nsDelta == change.nsDelta
          && Last(pending).t == old(state).t + 1 && Last(pending).txn.None?
          && Last(pending).parents == (if head.Some? then [head.value] else [])
          && state.head == Some(CommitCid(Last(pending))) && state.t == Last(pending).t
          && state.log == old(state).log + [Last(pending)]
    {
      var change := stmt(state);
      stmts := stmts + [stmt];
      assert stmts[..|stmts| - 1] == old(stmts);
      if change.flakes == [] {
        assert old(pending) + [] == old(pending);
        return 0;
      }
      var commit := BuildCommit(state, change);
      InstallOne(state, commit);
      ContinuesSnoc(base.head, base.t, pending, commit);
      assert state.log + [commit] == base.log + (pending + [commit]);
      pending := pending + [commit];
      state := Advance(state, commit);
      return |change.flakes|;
    }

    /**
     * COMMIT. A transaction with writes succeeds exactly when it began on a ledger with commits and
     * both the cached and the durable head are still its base; then its commits are stored and the
     * head moves once, to the last of them. On a ledger without commits it always loses.
     */
    method Commit(ledger: LedgerHandle, racing: Option<RefValue>) returns (r: Result<int, TransferError>)
      requires Valid() && base.t >= 0
      modifies ledger
      ensures OnlyAdds(old(ledger.store), ledger.store)
      ensures r.Ok? <==>
        || pending == []
        || (&& base.head.Some?
            && old(ledger.cached).t == base.t && old(ledger.cached).head == base.head
            && HeadAtCas(old(ledger.head), racing).id == base.head && HeadAtCas(old(ledger.head), racing).t < state.t)
      ensures r.Ok? ==> r.value == base.t + |pending|
      ensures r.Ok? && pending != [] ==>
        && ledger.head == Tip(pending) && ledger.head.t == base.t + |pending|
        && ledger.cached == RunAll(base, stmts)
        && forall i | 0 <= i < |pending| :: CommitStored(ledger.store, pending[i])
      ensures pending == [] ==> ledger.head == old(ledger.head) && ledger.cached == old(ledger.cached)
      ensures r.Err? ==>
        && ledger.head == HeadAtCas(old(ledger.head), if r.error.LostRace? then racing else None)
        && ledger.cached == old(ledger.cached)
    {
      if pending == [] { return Ok(base.t); }
      if ledger.cached.t != base.t || ledger.cached.head != base.head { return Err(MovedBase); }
      for i := 0 to |pending|
        invariant OnlyAdds(old(ledger.store), ledger.store)
        invariant ledger.head == old(ledger.head) && ledger.cached == old(ledger.cached)
        invariant forall k | 0 <= k < i :: CommitStored(ledger.store, pending[k])
      {
        ledger.store := ledger.store[CommitCid(pending[i]) := CommitBlob(pending[i])];
      }
      ContinuesT(base.head, base.t, pending, |pending| - 1);
      if racing.Some? { ledger.head := racing.value; }
      var won := ledger.CompareAndSet(Pinned(base), Tip(pending));
      if !won { return Err(LostRace(ledger.head)); }
      ledger.cached := state;
      return Ok(state.t);
    }
  }
}
