/**
 * Exactly when publication is serial: which steps of a run keep it, and which caches every later
 * transaction is serial from.
 */
module Serializability {
  import opened Ledger
  import opened PushValidation
  import opened Publication
  import opened PublicationSafety

  /** The commits a transaction's statements build on a state. */
  function Built(st: LedgerState, stmts: seq<Statement>): seq<Commit> {
    if stmts == [] then []
    else
      var front := stmts[..|stmts| - 1];
      Built(st, front) + StatementCommits(RunAll(st, front), Last(stmts))
  }

  ghost predicate RunsTo(st: LedgerState, cs: seq<Commit>, st': LedgerState) {
    && Continues(st.head, st.t, cs)
    && st' == LedgerState(HeadAfter(st.head, cs), st.t + |cs|, st.log + cs)
  }

  lemma RunsToOne(st: LedgerState, cs: seq<Commit>, mid: LedgerState, stmt: Statement)
    requires RunsTo(st, cs, mid)
    ensures RunsTo(st, cs + StatementCommits(mid, stmt), RunStatement(mid, stmt))
  {
    var change := stmt(mid);
    if change.flakes == [] {
      assert cs + [] == cs;
    } else {
      var commit := BuildCommit(mid, change);
      InstallOne(mid, commit);
      ContinuesSnoc(st.head, st.t, cs, commit);
      assert (st.log + cs) + [commit] == st.log + (cs + [commit]);
    }
  }

  /** Running statements appends what they build, each commit linked to the one before. */
  lemma {:induction false} RunAllBuilds(st: LedgerState, stmts: seq<Statement>)
    ensures RunsTo(st, Built(st, stmts), RunAll(st, stmts))
  {
    if stmts == [] {
      assert st.log + [] == st.log;
    } else {
      var front := stmts[..|stmts| - 1];
      RunAllBuilds(st, front);
      RunsToOne(st, Built(st, front), RunAll(st, front), Last(stmts));
    }
  }

  // ---------------------------------------------------------------------------
  // Transactions hold what their statements build
  // ---------------------------------------------------------------------------

  ghost predicate Honest(wr: Writer) {
    match wr
    case Open(_, base, state, pending, stmts) => pending == Built(base, stmts) && state == RunAll(base, stmts)
    case Staged(_, base, _, _, final, pub) =>
      pub.origin.Transaction? ==>
        pub.commits == Built(base, pub.origin.stmts) && final == RunAll(base, pub.origin.stmts)
    case _ => true
  }

  ghost predicate AllHonest(s: State) {
    forall w | w in s.writers :: Honest(s.writers[w])
  }

  lemma ExecutedHonest(wr: Writer, stmt: Statement)
    requires wr.Open? && Honest(wr)
    ensures Honest(Executed(wr, stmt))
  {
    var stmts := wr.stmts + [stmt];
    assert stmts[..|stmts| - 1] == wr.stmts && Last(stmts) == stmt;
  }

  lemma NextWriterHonest(s: State, e: Event)
    requires Enabled(s, e) && Local(e) && Honest(s.writers[e.w])
    ensures Honest(NextWriter(s, e))
  {
    if e.Execute? { ExecutedHonest(s.writers[e.w], e.stmt); }
  }

  lemma StepHonest(s: State, e: Event, s': State)
    requires AllHonest(s) && Next(s, e, s')
    ensures AllHonest(s')
  {
    if Local(e) { NextWriterHonest(s, e); }
    forall v | v in s'.writers ensures Honest(s'.writers[v]) {
      if v in s.writers { assert Honest(s.writers[v]); }
    }
  }

  lemma {:induction false} RunIsHonest(ss: seq<State>, es: seq<Event>, i: nat)
    requires IsRun(ss, es) && i < |ss|
    ensures AllHonest(ss[i])
    decreases i
  {
    if i > 0 {
      RunIsHonest(ss, es, i - 1);
      assert StepAt(ss, es, i - 1);
      StepHonest(ss[i - 1], es[i - 1], ss[i]);
    }
  }

  // ---------------------------------------------------------------------------
  // Which head moves are serial
  // ---------------------------------------------------------------------------

  /** The writer is about to publish a transaction. */
  predicate PublishesTransaction(s: State, e: Event) {
    && e.CompareAndSet? && e.w in s.writers && s.writers[e.w].Staged?
    && s.writers[e.w].todo == [] && Wins(s, s.writers[e.w]) && s.writers[e.w].pub.origin.Transaction?
  }

  /** Its statements would have built the same commits on the durable history. */
  ghost predicate BuildsTheSame(s: State, e: Event)
    requires PublishesTransaction(s, e)
  {
    var wr := s.writers[e.w];
    Built(wr.base, wr.pub.origin.stmts) == Built(Loaded(s), wr.pub.origin.stmts)
  }

  lemma SameTail(a: seq<Commit>, x: seq<Commit>, y: seq<Commit>)
    ensures a + x == a + y <==> x == y
  {
    if a + x == a + y { assert (a + x)[|a|..] == x && (a + y)[|a|..] == y; }
  }

  lemma TransactionSerialIff(s: State, e: Event, s': State)
    requires Inv(s) && Serial(s) && AllHonest(s) && Next(s, e, s') && PublishesTransaction(s, e)
    ensures Serial(s') <==> BuildsTheSame(s, e)
  {
    var wr, chain := s.writers[e.w], Chain(s.published);
    var stmts := wr.pub.origin.stmts;
    assert Honest(wr);
    WinAppends(s, e.w);
    ChainSnoc(s.published, wr.pub);
    RunAllBuilds(Loaded(s), stmts);
    SameTail(chain, Built(Loaded(s), stmts), wr.pub.commits);
    assert Replay(s'.published) == RunAll(Loaded(s), stmts);
    assert Loaded(s').log == chain + wr.pub.commits;
  }

  /** A batch is serial whatever cache it was staged over: it publishes the commits it was given. */
  lemma BatchIsSerial(s: State, e: Event, s': State)
    requires Inv(s) && Serial(s) && Next(s, e, s') && e.CompareAndSet? && Wins(s, s.writers[e.w])
    requires s.writers[e.w].pub.origin.Transferred?
    ensures Serial(s')
  {
    var wr, chain := s.writers[e.w], Chain(s.published);
    WinAppends(s, e.w);
    ChainSnoc(s.published, wr.pub);
    ContinuesInstall(Loaded(s), ExpectedId(wr.expected), |chain|, wr.pub.commits);
  }

  lemma StepSerialIff(s: State, e: Event, s': State)
    requires Inv(s) && Serial(s) && AllHonest(s) && Next(s, e, s')
    ensures Serial(s') <==> (PublishesTransaction(s, e) ==> BuildsTheSame(s, e))
  {
    if e.CompareAndSet? && Wins(s, s.writers[e.w]) {
      if s.writers[e.w].pub.origin.Transaction? {
        TransactionSerialIff(s, e, s');
      } else {
        BatchIsSerial(s, e, s');
      }
    }
  }

  /** If step `i` publishes a transaction, it publishes what the durable history gives. */
  ghost predicate BuiltAsSerial(ss: seq<State>, es: seq<Event>, i: nat)
    requires i < |es| && |ss| == |es| + 1
  {
    PublishesTransaction(ss[i], es[i]) ==> BuildsTheSame(ss[i], es[i])
  }

  ghost predicate SerialAt(ss: seq<State>, i: nat)
    requires i < |ss|
  {
    Serial(ss[i])
  }

  lemma RunStepSerialIff(ss: seq<State>, es: seq<Event>, i: nat)
    requires IsRun(ss, es) && i < |es| && SerialAt(ss, i)
    ensures SerialAt(ss, i + 1) <==> BuiltAsSerial(ss, es, i)
  {
    RunKeepsInv(ss, es, i);
    RunIsHonest(ss, es, i);
    assert StepAt(ss, es, i);
    StepSerialIff(ss[i], es[i], ss[i + 1]);
  }

  lemma InitIsSerial(ss: seq<State>, es: seq<Event>)
    requires IsRun(ss, es)
    ensures SerialAt(ss, 0)
  {
  }

  predicate KeptIff(kept: seq<bool>, good: seq<bool>, i: nat)
    requires i < |good| && |kept| == |good| + 1
  {
    kept[i] ==> (kept[i + 1] <==> good[i])
  }

  /** What holds at first and is kept by exactly the good steps holds throughout iff all are good. */
  lemma {:induction false} KeptThroughoutIff(kept: seq<bool>, good: seq<bool>, n: nat)
    requires n <= |good| && |kept| == |good| + 1 && kept[0]
    requires forall i | 0 <= i < |good| :: KeptIff(kept, good, i)
    ensures (forall i | 0 <= i <= n :: kept[i]) <==> (forall i | 0 <= i < n :: good[i])
  {
    if n > 0 {
      KeptThroughoutIff(kept, good, n - 1);
      assert KeptIff(kept, good, n - 1);
    }
  }

  ghost function SerialFlags(ss: seq<State>): (r: seq<bool>)
    ensures |r| == |ss| && forall i | 0 <= i < |ss| :: r[i] == SerialAt(ss, i)
  {
    seq(|ss|, i requires 0 <= i < |ss| => SerialAt(ss, i))
  }

  ghost function BuiltFlags(ss: seq<State>, es: seq<Event>): (r: seq<bool>)
    requires |ss| == |es| + 1
    ensures |r| == |es| && forall i | 0 <= i < |es| :: r[i] == BuiltAsSerial(ss, es, i)
  {
    seq(|es|, i requires 0 <= i < |es| => BuiltAsSerial(ss, es, i))
  }

  /**
   * A run is serial up to any moment exactly when every transaction it published had built, on the
   * base it was pinned to, the commits its statements build on the durable history.
   */
  lemma SerialRunIff(ss: seq<State>, es: seq<Event>, n: nat)
    requires IsRun(ss, es) && n < |ss|
    ensures (forall i | 0 <= i <= n :: SerialAt(ss, i)) <==> (forall i | 0 <= i < n :: BuiltAsSerial(ss, es, i))
  {
    var kept, good := SerialFlags(ss), BuiltFlags(ss, es);
    InitIsSerial(ss, es);
    forall i | 0 <= i < |good| ensures KeptIff(kept, good, i) {
      if SerialAt(ss, i) { RunStepSerialIff(ss, es, i); }
    }
    KeptThroughoutIff(kept, good, n);
    FlagsMean(ss, es, n);
  }

  lemma FlagsMean(ss: seq<State>, es: seq<Event>, n: nat)
    requires |ss| == |es| + 1 && n < |ss|
    ensures (forall i | 0 <= i <= n :: SerialFlags(ss)[i]) <==> (forall i | 0 <= i <= n :: SerialAt(ss, i))
    ensures (forall i | 0 <= i < n :: BuiltFlags(ss, es)[i]) <==> (forall i | 0 <= i < n :: BuiltAsSerial(ss, es, i))
  {
    var kept, good := SerialFlags(ss), BuiltFlags(ss, es);
    forall i | 0 <= i <= n ensures kept[i] == SerialAt(ss, i) {
    }
    forall i | 0 <= i < n ensures good[i] == BuiltAsSerial(ss, es, i) {
    }
  }

  // ---------------------------------------------------------------------------
  // Which caches are safe to transact from
  // ---------------------------------------------------------------------------

  function Assertion(s: string): Flake {
    Flake(Fact(None, s, "p", "o", "dt", None), true)
  }

  /** Records whether the state it runs on has applied exactly this history. */
  ghost function Probe(log: seq<Commit>): Statement {
    (st: LedgerState) => Change([Assertion(if st.log == log then "same" else "other")], map[])
  }

  lemma BuiltByOne(st: LedgerState, stmt: Statement)
    requires stmt(st).flakes != []
    ensures Built(st, [stmt]) == [BuildCommit(st, stmt(st))]
  {
    assert [stmt][..0] == [];
  }

  /** A last transaction that staged other flakes than the history before it gives is not serial. */
  lemma OtherFlakesNotSerial(pubs: seq<Publication>, pub: Publication, stmt: Statement, s: State)
    requires s.published == pubs + [pub] && pub.origin == Transaction([stmt]) && |pub.commits| == 1
    requires stmt(Replay(pubs)).flakes != [] && stmt(Replay(pubs)).flakes != pub.commits[0].flakes
    ensures !Serial(s)
  {
    ChainSnoc(pubs, pub);
    LastOfOne(Replay(pubs), stmt);
    assert Last(Chain(pubs) + pub.commits) == pub.commits[0];
  }

  lemma LastOfOne(st: LedgerState, stmt: Statement)
    requires stmt(st).flakes != []
    ensures RunAll(st, [stmt]).log != [] && Last(RunAll(st, [stmt]).log).flakes == stmt(st).flakes
  {
    RunAllBuilds(st, [stmt]);
    BuiltByOne(st, stmt);
  }

  /**
   * A cache at the durable head gives every transaction the commits the durable history gives,
   * exactly when it has applied that whole history.
   */
  lemma CacheIsSerialIff(s: State, p: Proc)
    requires Inv(s) && p in s.caches && s.caches[p].head == s.head.id
    ensures (forall stmts: seq<Statement> :: Built(s.caches[p], stmts) == Built(Loaded(s), stmts))
      <==> s.caches[p].log == Chain(s.published)
  {
    var cache, chain := s.caches[p], Chain(s.published);
    HeadAtInjective(chain, cache.t, |chain|);
    if cache.log == chain {
      assert cache == Loaded(s);
    } else {
      var probe := Probe(chain);
      BuiltByOne(cache, probe);
      BuiltByOne(Loaded(s), probe);
      assert BuildCommit(cache, probe(cache)).flakes == [Assertion("other")];
      assert BuildCommit(Loaded(s), probe(Loaded(s))).flakes == [Assertion("same")];
      assert Built(cache, [probe])[0] != Built(Loaded(s), [probe])[0];
    }
  }

  /** What one winning compare-and-set and the install after it leave behind. */
  lemma WinThenInstall(s: State, w: WriterId, won: State, installed: State)
    requires Inv(s) && w in s.writers && s.writers[w].Staged? && s.writers[w].todo == [] && Wins(s, s.writers[w])
    requires Next(s, CompareAndSet(w), won) && Next(won, Install(w), installed)
    ensures var wr := s.writers[w];
      && Chain(installed.published) == Chain(s.published) + wr.pub.commits
      && wr.p in installed.caches && installed.caches[wr.p] == wr.final && wr.final.head == installed.head.id
  {
    ChainSnoc(s.published, s.writers[w].pub);
  }

  lemma WinThenInstallInv(s: State, w: WriterId, won: State, installed: State)
    requires Inv(s) && Next(s, CompareAndSet(w), won) && Next(won, Install(w), installed)
    ensures Inv(installed)
  {
    StepKeepsInv(s, CompareAndSet(w), won);
    StepKeepsInv(won, Install(w), installed);
  }

  lemma CompleteAtEndIff(chain: seq<Commit>, st: LedgerState)
    requires st.t == |chain| && st.head == HeadAt(chain, |chain|)
    ensures Complete(chain, st) <==> st.log == chain
  {
    assert chain[..|chain|] == chain;
  }

  /**
   * After a batch has won and installed, every later transaction of that process is serial exactly
   * when the batch was staged over a cache at the head it was checked against.
   */
  lemma FreshBatchIff(s: State, w: WriterId, won: State, installed: State)
    requires Inv(s) && w in s.writers && s.writers[w].Staged? && s.writers[w].todo == [] && Wins(s, s.writers[w])
    requires s.writers[w].pub.origin.Transferred? && Complete(Chain(s.published), s.writers[w].base)
    requires Next(s, CompareAndSet(w), won) && Next(won, Install(w), installed)
    ensures s.writers[w].p in installed.caches
    ensures var wr := s.writers[w];
      (forall stmts: seq<Statement> :: Built(installed.caches[wr.p], stmts) == Built(Loaded(installed), stmts))
      <==> wr.base.head == ExpectedId(wr.expected)
  {
    var wr := s.writers[w];
    WinThenInstall(s, w, won, installed);
    WinThenInstallInv(s, w, won, installed);
    InstalledStateCompleteIff(s, w);
    CacheIsSerialIff(installed, wr.p);
    FinalAtEnd(installed, wr.p);
    CompleteAtEndIff(Chain(installed.published), wr.final);
  }

  lemma FinalAtEnd(s: State, p: Proc)
    requires Inv(s) && p in s.caches && s.caches[p].head == s.head.id
    ensures s.caches[p].t == |Chain(s.published)|
    ensures s.caches[p].head == HeadAt(Chain(s.published), |Chain(s.published)|)
  {
    HeadAtInjective(Chain(s.published), s.caches[p].t, |Chain(s.published)|);
  }
}
