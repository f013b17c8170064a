/**
 * The calls of the transfer module as runs of the publication protocol: what a successful import,
 * push or COMMIT promises about the head and the cache is what its steps, taken one after another
 * in any reachable state, lead to. What holds of every run then holds of these calls.
 */
module TransferRuns {
  import opened Ledger
  import opened PushValidation
  import opened Publication
  import opened PublicationSafety
  import opened Serializability
  import opened Transfer

  /** Equal up to stored objects. */
  ghost predicate SameButStore(s: State, t: State) {
    t == s.(store := t.store)
  }

  /** The second run goes on from the first without staging a batch. */
  ghost predicate GoesOn(ss: seq<State>, es: seq<Event>, ss': seq<State>, es': seq<Event>) {
    IsRun(ss', es') && ss <= ss' && es <= es' && forall k | |es| <= k < |es'| :: !es'[k].Stage?
  }

  /** One more step, which stages no batch. */
  lemma GoOn(ss: seq<State>, es: seq<Event>, ss1: seq<State>, es1: seq<Event>, e: Event)
    returns (ss': seq<State>, es': seq<Event>)
    requires GoesOn(ss, es, ss1, es1) && Enabled(Last(ss1), e) && !e.Stage?
    ensures GoesOn(ss, es, ss', es') && Last(ss') == After(Last(ss1), e)
  {
    ss', es' := Extend(ss1, es1, e);
  }

  /** A staged writer writes all its objects. */
  lemma {:induction false} WriteAll(ss0: seq<State>, es0: seq<Event>, ss: seq<State>, es: seq<Event>, w: WriterId)
    returns (ss': seq<State>, es': seq<Event>)
    requires GoesOn(ss0, es0, ss, es) && w in Last(ss).writers && Last(ss).writers[w].Staged?
    ensures GoesOn(ss0, es0, ss', es')
    ensures var s := Last(ss); SameButStore(s.(writers := s.writers[w := s.writers[w].(todo := [])]), Last(ss'))
    decreases |Last(ss).writers[w].todo|
  {
    var s := Last(ss);
    if s.writers[w].todo == [] {
      ss', es' := ss, es;
      assert s.writers == s.writers[w := s.writers[w].(todo := [])];
    } else {
      ss', es' := GoOn(ss0, es0, ss, es, WriteObject(w));
      var wr' := Last(ss').writers[w];
      assert s.writers[w := wr'][w := wr'.(todo := [])] == s.writers[w := s.writers[w].(todo := [])];
      ss', es' := WriteAll(ss0, es0, ss', es', w);
    }
  }

  /** Write everything, win the compare-and-set and install. */
  lemma Finish(ss0: seq<State>, es0: seq<Event>, ss: seq<State>, es: seq<Event>, w: WriterId)
    returns (ss': seq<State>, es': seq<Event>)
    requires GoesOn(ss0, es0, ss, es) && w in Last(ss).writers && Last(ss).writers[w].Staged?
    requires Wins(Last(ss), Last(ss).writers[w])
    ensures GoesOn(ss0, es0, ss', es')
    ensures var s, wr := Last(ss), Last(ss).writers[w];
      Last(ss') == State(Last(ss').store, Tip(wr.pub.commits), s.caches[wr.p := wr.final], s.writers[w := Stopped],
                         s.published + [wr.pub])
  {
    var s, wr := Last(ss), Last(ss).writers[w];
    ss', es' := WriteAll(ss0, es0, ss, es, w);
    ss', es' := GoOn(ss0, es0, ss', es', CompareAndSet(w));
    assert s.writers[w := wr.(todo := [])][w := Won(wr.p, wr.final)] == s.writers[w := Won(wr.p, wr.final)];
    ss', es' := GoOn(ss0, es0, ss', es', Install(w));
    assert s.writers[w := Won(wr.p, wr.final)][w := Stopped] == s.writers[w := Stopped];
  }

  // ---------------------------------------------------------------------------
  // Batches
  // ---------------------------------------------------------------------------

  /** Lock, read the head and stage an accepted batch. */
  lemma StageBatch(ss: seq<State>, es: seq<Event>, w: WriterId, p: Proc, batch: seq<Commit>, provided: map<Cid, Blob>,
                   txns: seq<Object>)
    returns (ss': seq<State>, es': seq<Event>)
    requires IsRun(ss, es) && w in Last(ss).writers && Last(ss).writers[w].Idle? && Unlocked(Last(ss), p)
    requires BatchAccepted(Last(ss).head, batch, provided) && ListsTxns(txns, batch, provided)
    ensures IsRun(ss', es')
    ensures var s := Last(ss);
      Last(ss') == s.(writers := s.writers[w := StagedBatch(HeadRead(p, s.caches[p], s.head), batch, txns)])
  {
    var s := Last(ss);
    ss', es' := Extend(ss, es, Lock(w, p));
    ss', es' := Extend(ss', es', ReadHead(w));
    assert Last(ss').writers == s.writers[w := HeadRead(p, s.caches[p], s.head)];
    ss', es' := Extend(ss', es', Stage(w, batch, provided, txns));
  }

  /**
   * An import or push that publishes: in any state of any run the steps of one writer lead to the
   * head, the cache and the history that `ImportIncremental` and `Push` promise.
   */
  lemma PublishedBatchIsARun(ss: seq<State>, es: seq<Event>, w: WriterId, p: Proc, blobs: seq<Blob>,
                             provided: map<Cid, Blob>, txns: seq<Object>)
    returns (ss': seq<State>, es': seq<Event>)
    requires IsRun(ss, es) && w in Last(ss).writers && Last(ss).writers[w].Idle? && Unlocked(Last(ss), p)
    requires ImportPublishes(Last(ss).head, blobs, provided, None) && ListsTxns(txns, CommitsOf(blobs), provided)
    ensures IsRun(ss', es')
    ensures var s, s', cs := Last(ss), Last(ss'), CommitsOf(blobs);
      && s'.head == Tip(cs)
      && s'.caches == s.caches[p := InstallBatch(s.caches[p], cs)]
      && s'.published == s.published + [Publication(cs, Transferred)]
      && s'.writers == s.writers[w := Stopped]
  {
    var s, cs := Last(ss), CommitsOf(blobs);
    var wr := StagedBatch(HeadRead(p, s.caches[p], s.head), cs, txns);
    AcceptedIffContinues(s.head, cs, provided);
    ss', es' := StageBatch(ss, es, w, p, cs, provided, txns);
    ss', es' := Finish(ss', es', ss', es', w);
    assert s.writers[w := wr][w := Stopped] == s.writers[w := Stopped];
  }

  // ---------------------------------------------------------------------------
  // Transactions
  // ---------------------------------------------------------------------------

  function OpenAfter(p: Proc, base: LedgerState, stmts: seq<Statement>): Writer {
    Open(p, base, RunAll(base, stmts), Built(base, stmts), stmts)
  }

  lemma OpenAfterNext(p: Proc, base: LedgerState, stmts: seq<Statement>, stmt: Statement)
    ensures OpenAfter(p, base, stmts + [stmt]) == Executed(OpenAfter(p, base, stmts), stmt)
  {
    var more := stmts + [stmt];
    assert more[..|more| - 1] == stmts && Last(more) == stmt;
  }

  /** BEGIN and some statements. */
  lemma {:induction false} ExecuteAll(ss: seq<State>, es: seq<Event>, w: WriterId, p: Proc, stmts: seq<Statement>)
    returns (ss': seq<State>, es': seq<Event>)
    requires IsRun(ss, es) && w in Last(ss).writers && Last(ss).writers[w].Idle? && Unlocked(Last(ss), p)
    ensures GoesOn(ss, es, ss', es')
    ensures var s := Last(ss); Last(ss') == s.(writers := s.writers[w := OpenAfter(p, s.caches[p], stmts)])
    decreases |stmts|
  {
    if stmts == [] {
      ss', es' := GoOn(ss, es, ss, es, Begin(w, p));
    } else {
      var front := stmts[..|stmts| - 1];
      assert front + [Last(stmts)] == stmts;
      ss', es' := ExecuteAll(ss, es, w, p, front);
      ss', es' := ExecuteNext(ss, es, ss', es', w, p, front, Last(stmts));
    }
  }

  lemma ExecuteNext(ss0: seq<State>, es0: seq<Event>, ss: seq<State>, es: seq<Event>, w: WriterId, p: Proc,
                    stmts: seq<Statement>, stmt: Statement)
    returns (ss': seq<State>, es': seq<Event>)
    requires ss0 != [] && GoesOn(ss0, es0, ss, es) && w in Last(ss0).writers && p in Last(ss0).caches
    requires var s := Last(ss0); Last(ss) == s.(writers := s.writers[w := OpenAfter(p, s.caches[p], stmts)])
    ensures GoesOn(ss0, es0, ss', es')
    ensures var s := Last(ss0); Last(ss') == s.(writers := s.writers[w := OpenAfter(p, s.caches[p], stmts + [stmt])])
  {
    OpenAfterNext(p, Last(ss0).caches[p], stmts, stmt);
    ss', es' := GoOn(ss0, es0, ss, es, Execute(w, stmt));
  }

  /** COMMIT of a transaction with writes whose base is still cached. */
  lemma StageTransaction(ss: seq<State>, es: seq<Event>, w: WriterId, p: Proc, stmts: seq<Statement>)
    returns (ss': seq<State>, es': seq<Event>)
    requires IsRun(ss, es) && w in Last(ss).writers && Last(ss).writers[w].Idle? && Unlocked(Last(ss), p)
    requires Built(Last(ss).caches[p], stmts) != []
    ensures GoesOn(ss, es, ss', es')
    ensures var s, base := Last(ss), Last(ss).caches[p];
      Last(ss') == s.(writers := s.writers[w := StagedTransaction(OpenAfter(p, base, stmts), base)])
  {
    ss', es' := ExecuteAll(ss, es, w, p, stmts);
    assert Unlocked(Last(ss'), p);
    ss', es' := GoOn(ss, es, ss', es', Event.Commit(w));
  }

  /** Commits built on the durable head carry the head's t onwards. */
  lemma BuiltTip(s: State, p: Proc, stmts: seq<Statement>)
    requires Inv(s) && p in s.caches && s.head.id == s.caches[p].head && Built(s.caches[p], stmts) != []
    ensures Tip(Built(s.caches[p], stmts)).t > s.head.t
  {
    var base, cs := s.caches[p], Built(s.caches[p], stmts);
    FinalAtEnd(s, p);
    RunAllBuilds(base, stmts);
    ContinuesT(base.head, base.t, cs, |cs| - 1);
  }

  /**
   * A transaction that commits: BEGIN, its statements and COMMIT, with no head move in between,
   * lead to the head and the cache that `Commit` promises.
   */
  lemma CommittedTransactionIsARun(ss: seq<State>, es: seq<Event>, w: WriterId, p: Proc, stmts: seq<Statement>)
    returns (ss': seq<State>, es': seq<Event>)
    requires IsRun(ss, es) && w in Last(ss).writers && Last(ss).writers[w].Idle? && Unlocked(Last(ss), p)
    requires Last(ss).caches[p].head.Some? && Last(ss).head.id == Last(ss).caches[p].head
    requires Built(Last(ss).caches[p], stmts) != []
    ensures GoesOn(ss, es, ss', es')
    ensures var s, s' := Last(ss), Last(ss');
      var cs := Built(s.caches[p], stmts);
      && s'.head == Tip(cs)
      && s'.caches == s.caches[p := RunAll(s.caches[p], stmts)]
      && s'.published == s.published + [Publication(cs, Transaction(stmts))]
      && s'.writers == s.writers[w := Stopped]
  {
    var s, base := Last(ss), Last(ss).caches[p];
    RunKeepsInv(ss, es, |ss| - 1);
    BuiltTip(s, p, stmts);
    ss', es' := StageTransaction(ss, es, w, p, stmts);
    var wr := StagedTransaction(OpenAfter(p, base, stmts), base);
    ss', es' := Finish(ss, es, ss', es', w);
    assert s.writers[w := wr][w := Stopped] == s.writers[w := Stopped];
  }
}
