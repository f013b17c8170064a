/**
 * How a run can go on: as long as later batches are staged over a cache at the durable head, every
 * continuation is serial exactly when every cache at the durable head has applied all of its history.
 */
module Continuations {
  import opened Ledger
  import opened PushValidation
  import opened Publication
  import opened PublicationSafety
  import opened Serializability
  import opened TransferRuns

  // ---------------------------------------------------------------------------
  // States at the durable head
  // ---------------------------------------------------------------------------

  /** A state at the durable head has applied the whole history. */
  ghost predicate Whole(chain: seq<Commit>, head: Option<Cid>, st: LedgerState) {
    st.head == head ==> st.log == chain
  }

  ghost predicate WriterWhole(chain: seq<Commit>, head: Option<Cid>, wr: Writer) {
    match wr
    case Idle => true
    case Stopped => true
    case Locked(_, base) => Whole(chain, head, base)
    case HeadRead(_, base, _) => Whole(chain, head, base)
    case Open(_, base, _, _, _) => Whole(chain, head, base)
    case Staged(_, base, expected, _, _, pub) =>
      && (pub.origin.Transaction? ==> Whole(chain, head, base))
      && (pub.origin.Transferred? && ExpectedId(expected) == head ==> base.head == head && base.log == chain)
    case Won(_, final) => Whole(chain, head, final)
  }

  ghost predicate AllWhole(s: State) {
    var chain := Chain(s.published);
    && (forall p | p in s.caches :: Whole(chain, s.head.id, s.caches[p]))
    && (forall w | w in s.writers :: WriterWhole(chain, s.head.id, s.writers[w]))
  }

  // ---------------------------------------------------------------------------
  // Steps that leave the head alone
  // ---------------------------------------------------------------------------

  lemma NextWriterWhole(s: State, e: Event)
    requires AllWhole(s) && Enabled(s, e) && Local(e) && FreshStep(s, e)
    ensures WriterWhole(Chain(s.published), s.head.id, NextWriter(s, e))
  {
    if e.w in s.writers { assert WriterWhole(Chain(s.published), s.head.id, s.writers[e.w]); }
  }

  lemma QuietStepWhole(s: State, e: Event, s': State)
    requires AllWhole(s) && Next(s, e, s') && FreshStep(s, e)
    requires e.CompareAndSet? ==> !Wins(s, s.writers[e.w])
    ensures AllWhole(s')
  {
    var chain := Chain(s.published);
    if Local(e) { NextWriterWhole(s, e); }
    forall w | w in s'.writers ensures WriterWhole(chain, s.head.id, s'.writers[w]) {
      assert WriterWhole(chain, s.head.id, s.writers[w]);
    }
    forall p | p in s'.caches ensures Whole(chain, s.head.id, s'.caches[p]) {
      if e.Install? { assert WriterWhole(chain, s.head.id, s.writers[e.w]); }
    }
  }

  // ---------------------------------------------------------------------------
  // Head moves
  // ---------------------------------------------------------------------------

  /** A head of the earlier history is not the new head. */
  lemma OldHeadIsNotNew(chain: seq<Commit>, more: seq<Commit>, n: nat)
    requires Continues(None, 0, chain + more) && more != [] && n <= |chain|
    ensures HeadAt(chain, n) != HeadAfter(None, more)
  {
    var all := chain + more;
    assert HeadAt(all, n) == HeadAt(chain, n) && HeadAt(all, |all|) == HeadAfter(None, more);
    if HeadAt(chain, n) == HeadAfter(None, more) { HeadAtInjective(all, n, |all|); }
  }

  /** Whatever was in memory before a head move is behind it afterwards. */
  lemma WriterFallsBehind(store: map<Cid, Blob>, chain: seq<Commit>, more: seq<Commit>, wr: Writer)
    requires Continues(None, 0, chain + more) && more != [] && WriterOk(store, chain, wr)
    ensures WriterWhole(chain + more, HeadAfter(None, more), wr)
  {
    match wr
    case Idle =>
    case Stopped =>
    case Locked(_, base) => OldHeadIsNotNew(chain, more, base.t);
    case HeadRead(_, base, _) => OldHeadIsNotNew(chain, more, base.t);
    case Open(_, base, _, _, _) => OldHeadIsNotNew(chain, more, base.t);
    case Staged(_, base, _, _, _, pub) =>
      OldHeadIsNotNew(chain, more, base.t);
      OldHeadIsNotNew(chain, more, pub.commits[0].t - 1);
    case Won(_, final) => OldHeadIsNotNew(chain, more, final.t);
  }

  /** The winner holds what it published on top of the history it published onto. */
  lemma WinnerIsWhole(s: State, w: WriterId)
    requires Inv(s) && AllHonest(s) && AllWhole(s)
    requires w in s.writers && s.writers[w].Staged? && s.writers[w].todo == [] && Wins(s, s.writers[w])
    ensures s.writers[w].final.log == Chain(s.published) + s.writers[w].pub.commits
  {
    var wr, chain := s.writers[w], Chain(s.published);
    assert Honest(wr) && WriterWhole(chain, s.head.id, wr);
    WinAppends(s, w);
    if wr.pub.origin.Transaction? {
      RunAllBuilds(wr.base, wr.pub.origin.stmts);
    } else {
      ContinuesInstall(wr.base, ExpectedId(wr.expected), |chain|, wr.pub.commits);
    }
  }

  lemma WinStepWhole(s: State, e: Event, s': State)
    requires Inv(s) && AllHonest(s) && AllWhole(s) && Next(s, e, s')
    requires e.CompareAndSet? && Wins(s, s.writers[e.w])
    ensures AllWhole(s')
  {
    var wr, chain := s.writers[e.w], Chain(s.published);
    WinAppends(s, e.w);
    ChainSnoc(s.published, wr.pub);
    WinnerIsWhole(s, e.w);
    forall v | v in s'.writers ensures WriterWhole(chain + wr.pub.commits, s'.head.id, s'.writers[v]) {
      if v != e.w { OthersFallBehind(s, wr.pub.commits, v); }
    }
    forall p | p in s'.caches ensures Whole(chain + wr.pub.commits, s'.head.id, s'.caches[p]) {
      CachesFallBehind(s, wr.pub.commits, p);
    }
  }

  lemma OthersFallBehind(s: State, commits: seq<Commit>, v: WriterId)
    requires Inv(s) && v in s.writers && commits != [] && Continues(None, 0, Chain(s.published) + commits)
    ensures WriterWhole(Chain(s.published) + commits, Some(CommitCid(Last(commits))), s.writers[v])
  {
    WriterFallsBehind(s.store, Chain(s.published), commits, s.writers[v]);
  }

  lemma CachesFallBehind(s: State, commits: seq<Commit>, p: Proc)
    requires Inv(s) && p in s.caches && commits != [] && Continues(None, 0, Chain(s.published) + commits)
    ensures Whole(Chain(s.published) + commits, Some(CommitCid(Last(commits))), s.caches[p])
  {
    OldHeadIsNotNew(Chain(s.published), commits, s.caches[p].t);
  }

  /** A transaction about to win from a whole base builds what the durable history gives. */
  lemma WholeBuildsTheSame(s: State, e: Event)
    requires Inv(s) && AllWhole(s) && PublishesTransaction(s, e)
    ensures BuildsTheSame(s, e)
  {
    var wr, chain := s.writers[e.w], Chain(s.published);
    assert WriterOk(s.store, chain, wr) && WriterWhole(chain, s.head.id, wr);
    HeadAtInjective(chain, wr.base.t, |chain|);
    assert wr.base == Loaded(s);
  }

  lemma StepWhole(s: State, e: Event, s': State)
    requires Inv(s) && AllHonest(s) && AllWhole(s) && Serial(s) && Next(s, e, s') && FreshStep(s, e)
    ensures AllWhole(s') && Serial(s')
  {
    if PublishesTransaction(s, e) { WholeBuildsTheSame(s, e); }
    StepSerialIff(s, e, s');
    if e.CompareAndSet? && Wins(s, s.writers[e.w]) {
      WinStepWhole(s, e, s');
    } else {
      QuietStepWhole(s, e, s');
    }
  }

  // ---------------------------------------------------------------------------
  // Whole runs
  // ---------------------------------------------------------------------------

  ghost predicate FreshAt(ss: seq<State>, es: seq<Event>, k: nat)
    requires k < |es| && |ss| == |es| + 1
  {
    FreshStep(ss[k], es[k])
  }

  /** A longer run in which every later batch is staged over a cache at the durable head. */
  ghost predicate FreshContinuation(ss: seq<State>, es: seq<Event>, ss': seq<State>, es': seq<Event>) {
    && IsRun(ss', es') && ss <= ss' && es <= es'
    && forall k | |es| <= k < |es'| :: FreshAt(ss', es', k)
  }

  /** From a serial state in which all that is at the durable head is whole, every continuation is serial. */
  lemma {:induction false} WholeStaysSerial(ss: seq<State>, es: seq<Event>, ss': seq<State>, es': seq<Event>, i: nat)
    requires IsRun(ss, es) && FreshContinuation(ss, es, ss', es') && |es| <= i <= |es'|
    requires AllWhole(Last(ss)) && Serial(Last(ss))
    ensures AllWhole(ss'[i]) && Serial(ss'[i])
    decreases i
  {
    if i == |es| {
      assert ss'[i] == Last(ss);
    } else {
      WholeStaysSerial(ss, es, ss', es', i - 1);
      assert FreshAt(ss', es', i - 1);
      RunStepWhole(ss', es', i - 1);
    }
  }

  lemma RunStepWhole(ss: seq<State>, es: seq<Event>, i: nat)
    requires IsRun(ss, es) && i < |es| && FreshAt(ss, es, i) && AllWhole(ss[i]) && Serial(ss[i])
    ensures AllWhole(ss[i + 1]) && Serial(ss[i + 1])
  {
    RunKeepsInv(ss, es, i);
    RunIsHonest(ss, es, i);
    assert StepAt(ss, es, i);
    StepWhole(ss[i], es[i], ss[i + 1]);
  }

  /** A cache without a head has applied nothing. */
  ghost predicate UnbornIsEmpty(s: State) {
    && (forall p | p in s.caches && s.caches[p].head.None? :: s.caches[p].log == [])
    && (forall w | w in s.writers && s.writers[w].Won? :: s.writers[w].final.head.Some?)
  }

  /** A staged writer will have a head, and a ledger without one has no history. */
  ghost predicate HeadsAreReal(s: State, e: Event) {
    && (s.head.id.None? ==> Chain(s.published) == [])
    && (e.CompareAndSet? && e.w in s.writers && s.writers[e.w].Staged? ==> s.writers[e.w].final.head.Some?)
  }

  lemma InvHeadsAreReal(s: State, e: Event)
    requires Inv(s)
    ensures HeadsAreReal(s, e)
  {
    if e.CompareAndSet? && e.w in s.writers { assert WriterOk(s.store, Chain(s.published), s.writers[e.w]); }
  }

  lemma StepUnborn(s: State, e: Event, s': State)
    requires HeadsAreReal(s, e) && UnbornIsEmpty(s) && Next(s, e, s')
    ensures UnbornIsEmpty(s')
  {
  }

  lemma {:induction false} RunUnborn(ss: seq<State>, es: seq<Event>, i: nat)
    requires IsRun(ss, es) && i < |ss|
    ensures UnbornIsEmpty(ss[i])
    decreases i
  {
    if i > 0 {
      RunUnborn(ss, es, i - 1);
      RunKeepsInv(ss, es, i - 1);
      assert StepAt(ss, es, i - 1);
      InvHeadsAreReal(ss[i - 1], es[i - 1]);
      StepUnborn(ss[i - 1], es[i - 1], ss[i]);
    }
  }

  /** No writer is in the middle of anything. */
  ghost predicate Quiet(s: State) {
    forall w | w in s.writers :: s.writers[w].Idle? || s.writers[w].Stopped?
  }

  /** A torn cache at the durable head: one transaction from it, and the run is not serial. */
  lemma TornCacheBreaks(ss: seq<State>, es: seq<Event>, w: WriterId, p: Proc)
    returns (ss': seq<State>, es': seq<Event>)
    requires IsRun(ss, es) && Serial(Last(ss)) && Quiet(Last(ss))
    requires w in Last(ss).writers && Last(ss).writers[w].Idle?
    requires p in Last(ss).caches && !Whole(Chain(Last(ss).published), Last(ss).head.id, Last(ss).caches[p])
    ensures FreshContinuation(ss, es, ss', es') && !Serial(Last(ss'))
  {
    var s, cache := Last(ss), Last(ss).caches[p];
    var probe := Probe(Chain(s.published));
    RunKeepsInv(ss, es, |ss| - 1);
    RunUnborn(ss, es, |ss| - 1);
    BuiltByOne(cache, probe);
    ss', es' := CommittedTransactionIsARun(ss, es, w, p, [probe]);
    forall k | |es| <= k < |es'| ensures FreshAt(ss', es', k) {
    }
    var pub := Publication(Built(cache, [probe]), Transaction([probe]));
    assert probe(Loaded(s)).flakes == [Assertion("same")] && pub.commits[0].flakes == [Assertion("other")];
    assert "same"[0] != "other"[0];
    OtherFlakesNotSerial(s.published, pub, probe, Last(ss'));
  }

  /**
   * Take any serial run at a moment when no writer is under way but one can start. Every
   * continuation whose batches are staged over a cache at the durable head is serial exactly when
   * every cache at the durable head has applied the whole history.
   */
  lemma ContinuationsSerialIff(ss: seq<State>, es: seq<Event>, w: WriterId)
    requires IsRun(ss, es) && Serial(Last(ss)) && Quiet(Last(ss))
    requires w in Last(ss).writers && Last(ss).writers[w].Idle?
    ensures (forall ss', es' | FreshContinuation(ss, es, ss', es') :: Serial(Last(ss')))
      <==> forall p | p in Last(ss).caches :: Whole(Chain(Last(ss).published), Last(ss).head.id, Last(ss).caches[p])
  {
    var s := Last(ss);
    if p :| p in s.caches && !Whole(Chain(s.published), s.head.id, s.caches[p]) {
      var ss', es' := TornCacheBreaks(ss, es, w, p);
    } else {
      assert AllWhole(s);
      forall ss', es' | FreshContinuation(ss, es, ss', es') ensures Serial(Last(ss')) {
        WholeStaysSerial(ss, es, ss', es', |es'|);
      }
    }
  }

  /**
   * Loading heals: in any state of any run a process that is not in the middle of a write can load
   * the ledger, and then every transaction builds from its cache what the durable history gives.
   */
  lemma LoadHeals(ss: seq<State>, es: seq<Event>, p: Proc) returns (ss': seq<State>, es': seq<Event>)
    requires IsRun(ss, es) && Unlocked(Last(ss), p)
    ensures GoesOn(ss, es, ss', es') && p in Last(ss').caches
    ensures forall stmts :: Built(Last(ss').caches[p], stmts) == Built(Loaded(Last(ss)), stmts)
    ensures Last(ss').caches[p].log == Chain(Last(ss).published) && Last(ss').published == Last(ss).published
  {
    ss', es' := GoOn(ss, es, ss, es, Load(p));
  }
}
