/**
 * Which compare-and-sets lose, and what losing leaves behind: the first interactive transaction of
 * a ledger always loses, and a writer that never wins leaves nothing but unreferenced objects.
 */
module LostRaces {
  import opened Ledger
  import opened PushValidation
  import opened Publication
  import opened PublicationSafety

  // ---------------------------------------------------------------------------
  // Transactions on a ledger without commits
  // ---------------------------------------------------------------------------

  /**
   * A staged transaction wins exactly when it began on a ledger with commits and the durable head
   * is still the one it began on; that t grows then follows.
   */
  lemma TransactionWinsIff(s: State, w: WriterId)
    requires Inv(s) && w in s.writers && s.writers[w].Staged? && s.writers[w].pub.origin.Transaction?
    ensures Wins(s, s.writers[w]) <==> s.writers[w].base.head.Some? && s.head.id == s.writers[w].base.head
  {
    var wr, chain := s.writers[w], Chain(s.published);
    assert WriterOk(s.store, chain, wr);
    if s.head.id == wr.base.head {
      HeadAtInjective(chain, wr.base.t, |chain|);
      HeadAtInjective(chain, wr.pub.commits[0].t - 1, |chain|);
      ContinuesT(ExpectedId(wr.expected), |chain|, wr.pub.commits, |wr.pub.commits| - 1);
    }
  }

  /** From BEGIN on, a writer that is still open has the base it began on. */
  lemma {:induction false} OpenKeepsBase(ss: seq<State>, es: seq<Event>, i: nat, k: nat)
    requires IsRun(ss, es) && i < k <= |es| && es[i].Begin?
    ensures es[i].w in ss[k].writers && !ss[k].writers[es[i].w].Idle? && es[i].p in ss[i].caches
    ensures var wr := ss[k].writers[es[i].w]; wr.Open? ==> wr.p == es[i].p && wr.base == ss[i].caches[es[i].p]
    decreases k
  {
    assert StepAt(ss, es, k - 1);
    if k > i + 1 { OpenKeepsBase(ss, es, i, k - 1); }
  }

  /**
   * In every run COMMIT goes on to write exactly when the transaction changed something and the cached
   * head is the one of its BEGIN; that t is the same then follows.
   */
  lemma CommitStagesIff(ss: seq<State>, es: seq<Event>, i: nat, k: nat)
    requires IsRun(ss, es) && i < k < |es| && es[i].Begin? && es[k].Commit? && es[k].w == es[i].w
    ensures es[k].w in ss[k].writers && es[k].w in ss[k + 1].writers && ss[k].writers[es[k].w].Open?
    ensures es[i].p in ss[i].caches && es[i].p in ss[k].caches
    ensures ss[k + 1].writers[es[k].w].Staged? <==>
      ss[k].writers[es[k].w].pending != [] && ss[k].caches[es[i].p].head == ss[i].caches[es[i].p].head
  {
    OpenKeepsBase(ss, es, i, k);
    RunKeepsInv(ss, es, k);
    assert StepAt(ss, es, k);
    var s, wr := ss[k], ss[k].writers[es[k].w];
    assert WriterOk(s.store, Chain(s.published), wr);
    if s.caches[wr.p].head == wr.base.head { HeadAtInjective(Chain(s.published), s.caches[wr.p].t, wr.base.t); }
  }

  /** No writer holds a batch: everything staged is a transaction. */
  ghost predicate OnlyTransactions(s: State) {
    forall w | w in s.writers :: s.writers[w].Staged? ==> s.writers[w].pub.origin.Transaction?
  }

  lemma StepWithoutBatches(s: State, e: Event, s': State)
    requires Inv(s) && s.published == [] && OnlyTransactions(s) && Next(s, e, s') && !e.Stage?
    ensures s'.published == [] && OnlyTransactions(s')
  {
    if e.CompareAndSet? {
      TransactionWinsIff(s, e.w);
    }
  }

  /**
   * On a new ledger no interactive transaction ever commits: in every run, as long as no batch has
   * been staged, whatever transactions ran, nothing is published.
   */
  lemma {:induction false} TransactionsNeverPublishFirst(ss: seq<State>, es: seq<Event>, i: nat)
    requires IsRun(ss, es) && i < |ss|
    requires forall k | 0 <= k < i :: !es[k].Stage?
    ensures ss[i].published == [] && ss[i].head == RefValue(None, 0) && OnlyTransactions(ss[i])
    decreases i
  {
    if i > 0 {
      TransactionsNeverPublishFirst(ss, es, i - 1);
      RunKeepsInv(ss, es, i - 1);
      assert StepAt(ss, es, i - 1);
      StepWithoutBatches(ss[i - 1], es[i - 1], ss[i]);
    }
    UnpublishedIsUnborn(ss, es, i);
  }

  lemma UnpublishedIsUnborn(ss: seq<State>, es: seq<Event>, i: nat)
    requires IsRun(ss, es) && i < |ss| && ss[i].published == []
    ensures ss[i].head == RefValue(None, 0)
  {
    RunKeepsInv(ss, es, i);
  }

  lemma StepFirstTransferred(s: State, e: Event, s': State)
    requires Inv(s) && Next(s, e, s') && (s.published != [] ==> s.published[0].origin.Transferred?)
    ensures s'.published != [] ==> s'.published[0].origin.Transferred?
  {
    if e.CompareAndSet? && s.writers[e.w].pub.origin.Transaction? {
      TransactionWinsIff(s, e.w);
    }
  }

  /** In every run the first publication of a ledger is a pushed or imported batch. */
  lemma {:induction false} FirstPublicationIsTransferred(ss: seq<State>, es: seq<Event>, i: nat)
    requires IsRun(ss, es) && i < |ss| && ss[i].published != []
    ensures ss[i].published[0].origin.Transferred?
    decreases i
  {
    if i > 0 {
      if ss[i - 1].published != [] { FirstPublicationIsTransferred(ss, es, i - 1); }
      RunKeepsInv(ss, es, i - 1);
      assert StepAt(ss, es, i - 1);
      StepFirstTransferred(ss[i - 1], es[i - 1], ss[i]);
    }
  }

  // ---------------------------------------------------------------------------
  // A writer that never wins
  // ---------------------------------------------------------------------------

  predicate By(e: Event, w: WriterId) {
    !e.Load? && e.w == w
  }

  /** The events of all other writers. */
  function Without(es: seq<Event>, w: WriterId): seq<Event> {
    if es == [] then []
    else
      var front := Without(es[..|es| - 1], w);
      if By(Last(es), w) then front else front + [Last(es)]
  }

  ghost predicate WinsAt(ss: seq<State>, es: seq<Event>, i: nat, w: WriterId)
    requires IsRun(ss, es) && i < |es|
  {
    assert StepAt(ss, es, i);
    es[i].CompareAndSet? && es[i].w == w && Wins(ss[i], ss[i].writers[w])
  }

  /** `t` is `s` as if `w` had not started yet; only objects it wrote may be missing. */
  ghost predicate SameBut(w: WriterId, s: State, t: State) {
    && t.head == s.head && t.caches == s.caches && t.published == s.published
    && w in s.writers && !s.writers[w].Won? && t.writers == s.writers[w := Idle]
    && t.store.Keys <= s.store.Keys
  }

  lemma OtherStepSame(w: WriterId, s: State, t: State, e: Event, s': State)
    requires SameBut(w, s, t) && Next(s, e, s') && !By(e, w)
    ensures Enabled(t, e) && SameBut(w, s', After(t, e))
  {
    if Local(e) {
      LocalStepSame(w, s, t, e);
      assert s.writers[e.w := NextWriter(s, e)][w := Idle] == s.writers[w := Idle][e.w := NextWriter(s, e)];
    } else {
      SharedStepSame(w, s, t, e, s');
    }
  }

  lemma LocalStepSame(w: WriterId, s: State, t: State, e: Event)
    requires SameBut(w, s, t) && Enabled(s, e) && Local(e) && !By(e, w)
    ensures Enabled(t, e) && NextWriter(t, e) == NextWriter(s, e)
  {
  }

  lemma SharedStepSame(w: WriterId, s: State, t: State, e: Event, s': State)
    requires SameBut(w, s, t) && Next(s, e, s') && !Local(e) && !By(e, w)
    ensures Enabled(t, e) && SameBut(w, s', After(t, e))
  {
    if e.Load? {
      assert Loaded(t) == Loaded(s);
    } else {
      var wr' := s'.writers[e.w];
      assert s.writers[e.w := wr'][w := Idle] == s.writers[w := Idle][e.w := wr'];
    }
  }

  lemma LosingStepSame(w: WriterId, s: State, t: State, e: Event, s': State)
    requires SameBut(w, s, t) && Next(s, e, s') && By(e, w)
    requires e.CompareAndSet? ==> !Wins(s, s.writers[w])
    ensures SameBut(w, s', t)
  {
  }

  lemma RunPrefix(ss: seq<State>, es: seq<Event>)
    requires IsRun(ss, es) && es != []
    ensures IsRun(ss[..|ss| - 1], es[..|es| - 1])
  {
    var ss0, es0 := ss[..|ss| - 1], es[..|es| - 1];
    forall i | 0 <= i < |es0| ensures StepAt(ss0, es0, i) {
      assert StepAt(ss, es, i);
    }
  }

  /**
   * Failure leaves no trace: take any run and any writer that never wins a compare-and-set in it,
   * whether it loses, is refused or stops half way. Leaving out all its events gives a run too, and
   * it ends with the same head, caches, history and other writers.
   */
  lemma {:induction false} LoserLeavesNoTrace(ss: seq<State>, es: seq<Event>, w: WriterId) returns (ts: seq<State>)
    requires IsRun(ss, es) && w in ss[0].writers
    requires forall i | 0 <= i < |es| :: !WinsAt(ss, es, i, w)
    ensures IsRun(ts, Without(es, w)) && SameBut(w, Last(ss), Last(ts))
    decreases |es|
  {
    if es == [] {
      ts := ss;
      assert ss[0].writers == ss[0].writers[w := Idle];
    } else {
      var n := |es| - 1;
      RunPrefix(ss, es);
      var ss0, es0 := ss[..n + 1], es[..n];
      forall i | 0 <= i < n ensures !WinsAt(ss0, es0, i, w) {
        assert !WinsAt(ss, es, i, w);
      }
      ts := LoserLeavesNoTrace(ss0, es0, w);
      assert StepAt(ss, es, n);
      if By(es[n], w) {
        assert !WinsAt(ss, es, n, w);
        LosingStepSame(w, ss[n], Last(ts), es[n], ss[n + 1]);
      } else {
        OtherStepSame(w, ss[n], Last(ts), es[n], ss[n + 1]);
        var fs;
        ts, fs := Extend(ts, Without(es0, w), es[n]);
      }
    }
  }
}
