/**
 * What every run of the publication protocol guarantees: one linear durable history, atomic
 * transactions, and serial execution as long as no batch is staged over a stale cache.
 */
module PublicationSafety {
  import opened Ledger
  import opened PushValidation
  import opened Publication

  // ---------------------------------------------------------------------------
  // Linear, durable history
  // ---------------------------------------------------------------------------

  /**
   * `path` (oldest first) leads from head `a` to head `b`: its first commit names `a` as a parent,
   * each later one names its predecessor, t grows by one per commit, and `b` is its last commit.
   */
  ghost predicate Descends(a: RefValue, path: seq<Commit>, b: RefValue) {
    && Continues(a.id, a.t, path)
    && b == RefValue(HeadAfter(a.id, path), a.t + |path|)
  }

  lemma DescendsAppend(a: RefValue, xs: seq<Commit>, b: RefValue, ys: seq<Commit>, c: RefValue)
    requires Descends(a, xs, b) && Descends(b, ys, c)
    ensures Descends(a, xs + ys, c)
  {
    ContinuesAppend(a.id, a.t, xs, ys);
  }

  lemma WinPublishes(s: State, w: WriterId, head: RefValue)
    requires Inv(s) && w in s.writers && s.writers[w].Staged? && s.writers[w].todo == [] && Wins(s, s.writers[w])
    requires s.writers[w].pub.commits != [] && head == Tip(s.writers[w].pub.commits)
    ensures Descends(s.head, s.writers[w].pub.commits, head)
    ensures Chain(s.published + [s.writers[w].pub]) == Chain(s.published) + s.writers[w].pub.commits
  {
    WinAppends(s, w);
    ChainSnoc(s.published, s.writers[w].pub);
  }

  /** A step either leaves the head and the history alone or publishes one writer's commits. */
  lemma StepPublishes(s: State, e: Event, s': State) returns (path: seq<Commit>)
    requires Inv(s) && Next(s, e, s')
    ensures Descends(s.head, path, s'.head)
    ensures Chain(s'.published) == Chain(s.published) + path
    ensures s.published <= s'.published
  {
    if e.CompareAndSet? && Wins(s, s.writers[e.w]) {
      WinPublishes(s, e.w, s'.head);
      path := s.writers[e.w].pub.commits;
    } else {
      assert s'.head == s.head && s'.published == s.published;
      path := [];
    }
  }

  lemma RunStepPublishes(ss: seq<State>, es: seq<Event>, i: nat) returns (path: seq<Commit>)
    requires IsRun(ss, es) && i < |es|
    ensures Descends(ss[i].head, path, ss[i + 1].head)
    ensures Chain(ss[i + 1].published) == Chain(ss[i].published) + path
    ensures ss[i].published <= ss[i + 1].published
  {
    assert StepAt(ss, es, i);
    RunKeepsInv(ss, es, i);
    path := StepPublishes(ss[i], es[i], ss[i + 1]);
  }

  lemma PublishedIsStored(ss: seq<State>, es: seq<Event>, i: nat)
    requires IsRun(ss, es) && i < |ss|
    ensures forall k | 0 <= k < |Chain(ss[i].published)| :: CommitStored(ss[i].store, Chain(ss[i].published)[k])
  {
    RunKeepsInv(ss, es, i);
  }

  /** Every later head descends from every earlier one. */
  lemma {:induction false} HeadsDescend(ss: seq<State>, es: seq<Event>, i: nat, j: nat) returns (path: seq<Commit>)
    requires IsRun(ss, es) && i <= j < |ss|
    ensures Descends(ss[i].head, path, ss[j].head)
    ensures Chain(ss[j].published) == Chain(ss[i].published) + path
    decreases j - i
  {
    if i == j {
      path := [];
      assert Chain(ss[i].published) + [] == Chain(ss[i].published);
    } else {
      var first := HeadsDescend(ss, es, i, j - 1);
      var more := RunStepPublishes(ss, es, j - 1);
      DescendsAppend(ss[i].head, first, ss[j - 1].head, more, ss[j].head);
      path := first + more;
      SeqAssoc(Chain(ss[i].published), first, more);
    }
  }

  lemma SeqAssoc<T>(a: seq<T>, b: seq<T>, c: seq<T>)
    ensures a + b + c == a + (b + c)
  {
  }

  /**
   * Published history is linear and durable: in every run, any later head reaches any earlier one
   * by parent links with t falling by exactly one per link, and every commit on the way, with its
   * txn blob, is stored under its own digest.
   */
  lemma LinearHistory(ss: seq<State>, es: seq<Event>, i: nat, j: nat) returns (path: seq<Commit>)
    requires IsRun(ss, es) && i <= j < |ss|
    ensures Descends(ss[i].head, path, ss[j].head)
    ensures Chain(ss[j].published) == Chain(ss[i].published) + path
    ensures forall k | 0 <= k < |path| :: CommitStored(ss[j].store, path[k])
  {
    path := HeadsDescend(ss, es, i, j);
    PublishedIsStored(ss, es, j);
    var n := |Chain(ss[i].published)|;
    forall k | 0 <= k < |path| ensures CommitStored(ss[j].store, path[k]) {
      assert path[k] == Chain(ss[j].published)[n + k];
    }
  }

  /** The head is never dangling: in every state of every run it names a stored object. */
  lemma HeadIsStored(ss: seq<State>, es: seq<Event>, i: nat)
    requires IsRun(ss, es) && i < |ss| && ss[i].head.id.Some?
    ensures ObjectStored(ss[i].store, ss[i].head.id.value)
  {
    RunKeepsInv(ss, es, i);
    var chain := Chain(ss[i].published);
    assert CommitStored(ss[i].store, chain[|chain| - 1]);
  }

  // ---------------------------------------------------------------------------
  // Atomic publication
  // ---------------------------------------------------------------------------

  lemma {:induction false} PublishedGrows(ss: seq<State>, es: seq<Event>, i: nat, j: nat)
    requires IsRun(ss, es) && i <= j < |ss|
    ensures ss[i].published <= ss[j].published
    decreases j - i
  {
    if i < j {
      PublishedGrows(ss, es, i, j - 1);
      var _ := RunStepPublishes(ss, es, j - 1);
    }
  }

  lemma {:induction false} ChainPrefix(pubs: seq<Publication>, n: nat)
    requires n <= |pubs|
    ensures Chain(pubs[..n]) <= Chain(pubs)
  {
    if n == |pubs| {
      assert pubs[..n] == pubs;
    } else {
      var init := pubs[..|pubs| - 1];
      ChainPrefix(init, n);
      assert init[..n] == pubs[..n];
    }
  }

  /** Ends of publications and commits inside them sit at different places of the history. */
  lemma EndsAreNotInside(pubs: seq<Publication>, n: nat, q: nat, k: nat)
    requires n <= |pubs| && q < |pubs| && k < |pubs[q].commits| - 1
    ensures |Chain(pubs[..n])| <= |Chain(pubs)| && |Chain(pubs[..q])| + k < |Chain(pubs)|
    ensures Chain(pubs)[|Chain(pubs[..q])| + k] == pubs[q].commits[k]
    ensures |Chain(pubs[..n])| != |Chain(pubs[..q])| + k + 1
  {
    assert pubs[..q + 1] == pubs[..q] + [pubs[q]];
    ChainSnoc(pubs[..q], pubs[q]);
    ChainPrefix(pubs, n);
    ChainPrefix(pubs, q + 1);
    assert Chain(pubs[..q + 1])[|Chain(pubs[..q])| + k] == pubs[q].commits[k];
    if n <= q {
      ChainPrefix(pubs[..q], n);
      assert pubs[..q][..n] == pubs[..n];
    } else {
      ChainPrefix(pubs[..n], q + 1);
      assert pubs[..n][..q + 1] == pubs[..q + 1];
    }
  }

  /** The head of a state is the end of the history published so far. */
  lemma HeadIsEnd(ss: seq<State>, es: seq<Event>, i: nat)
    requires IsRun(ss, es) && i < |ss|
    ensures Continues(None, 0, Chain(ss[i].published))
    ensures ss[i].head.id == HeadAt(Chain(ss[i].published), |Chain(ss[i].published)|)
  {
    RunKeepsInv(ss, es, i);
  }

  /**
   * Intermediate commits are never observable: in no state of a run is the head a commit of a
   * published batch or transaction other than its last one.
   */
  lemma NoIntermediateHead(ss: seq<State>, es: seq<Event>, i: nat, j: nat, q: nat, k: nat)
    requires IsRun(ss, es) && i < |ss| && j < |ss|
    requires q < |ss[j].published| && k < |ss[j].published[q].commits| - 1
    ensures ss[i].head.id != Some(CommitCid(ss[j].published[q].commits[k]))
  {
    var m := if i < j then j else i;
    PublishedGrows(ss, es, i, m);
    PublishedGrows(ss, es, j, m);
    HeadIsEnd(ss, es, i);
    HeadIsEnd(ss, es, m);
    var pubs, n := ss[m].published, |ss[i].published|;
    assert pubs[..n] == ss[i].published && pubs[q] == ss[j].published[q];
    EndsAreNotInside(pubs, n, q, k);
    ChainPrefix(pubs, n);
    var at := |Chain(pubs[..q])| + k;
    if ss[i].head.id == Some(CommitCid(pubs[q].commits[k])) {
      HeadAtInjective(Chain(pubs), |Chain(pubs[..n])|, at + 1);
      assert false;
    }
  }

  /**
   * Publication is one head move: from the head the writer expected to the last of its commits. A
   * transaction moves it from exactly the head and t it was pinned to at BEGIN.
   */
  lemma PublicationIsOneMove(s: State, e: Event, s': State)
    requires Inv(s) && Next(s, e, s') && s'.head != s.head
    ensures e.CompareAndSet? && s.writers[e.w].Staged?
    ensures var wr := s.writers[e.w];
      && wr.expected.Some? && s.head.id == wr.expected.value.id
      && s'.head == RefValue(Some(CommitCid(Last(wr.pub.commits))), s.head.t + |wr.pub.commits|)
      && (wr.pub.origin.Transaction? ==> s.head == RefValue(wr.base.head, wr.base.t))
  {
    var wr := s.writers[e.w];
    WinAppends(s, e.w);
    var chain := Chain(s.published);
    if wr.pub.origin.Transaction? {
      HeadAtInjective(chain, wr.base.t, |chain|);
    }
  }

  // ---------------------------------------------------------------------------
  // Serial execution
  // ---------------------------------------------------------------------------

  /** An in-memory state holds exactly the commits its head stands for. */
  ghost predicate Complete(chain: seq<Commit>, st: LedgerState) {
    AtPublishedHead(chain, st) && st.log == chain[..st.t]
  }

  ghost predicate WriterComplete(chain: seq<Commit>, wr: Writer) {
    match wr
    case Idle => true
    case Stopped => true
    case Locked(_, base) => Complete(chain, base)
    case HeadRead(_, base, _) => Complete(chain, base)
    case Open(_, base, state, pending, stmts) =>
      Complete(chain, base) && state == RunAll(base, stmts) && state.log == base.log + pending
    case Staged(_, base, expected, _, final, pub) =>
      && Complete(chain, base) && base.head == ExpectedId(expected)
      && final == Apply(base, pub) && final.log == base.log + pub.commits
    case Won(_, final) => Complete(chain, final)
  }

  ghost predicate AllComplete(s: State) {
    var chain := Chain(s.published);
    && (forall p | p in s.caches :: Complete(chain, s.caches[p]))
    && (forall w | w in s.writers :: WriterComplete(chain, s.writers[w]))
  }

  /** The durable history is what running every publication one after another gives. */
  ghost predicate Serial(s: State) {
    Replay(s.published) == Loaded(s)
  }

  /** The batch being staged was checked against the very head its base state is at. */
  ghost predicate FreshStep(s: State, e: Event) {
    e.Stage? && e.w in s.writers && s.writers[e.w].HeadRead? ==>
      s.writers[e.w].base.head == s.writers[e.w].current.id
  }

  lemma CompleteGrows(chain: seq<Commit>, chain': seq<Commit>, wr: Writer)
    requires chain <= chain' && WriterComplete(chain, wr)
    ensures WriterComplete(chain', wr)
  {
  }

  lemma ExecutedComplete(chain: seq<Commit>, wr: Writer, stmt: Statement)
    requires wr.Open? && WriterComplete(chain, wr)
    ensures WriterComplete(chain, Executed(wr, stmt))
  {
    var wr' := Executed(wr, stmt);
    assert wr'.stmts[..|wr'.stmts| - 1] == wr.stmts;
    var ch := stmt(wr.state);
    if ch.flakes == [] {
      assert wr.pending + [] == wr.pending;
    } else {
      InstallOne(wr.state, BuildCommit(wr.state, ch));
      assert wr.state.log + [BuildCommit(wr.state, ch)] == wr.base.log + wr'.pending;
    }
  }

  lemma NextWriterComplete(s: State, e: Event)
    requires Inv(s) && AllComplete(s) && Enabled(s, e) && Local(e) && FreshStep(s, e)
    ensures WriterComplete(Chain(s.published), NextWriter(s, e))
  {
    var wr := s.writers[e.w];
    match e
    case Stage(_, batch, provided, _) =>
      AcceptedIffContinues(wr.current, batch, provided);
      ContinuesInstall(wr.base, wr.current.id, wr.current.t, batch);
    case Execute(_, stmt) => ExecutedComplete(Chain(s.published), wr, stmt);
    case _ =>
  }

  /** A writer about to win with a complete base at the durable head publishes serially. */
  lemma WinIsSerial(s: State, w: WriterId)
    requires Inv(s) && Serial(s) && w in s.writers && s.writers[w].Staged? && s.writers[w].todo == []
    requires WriterComplete(Chain(s.published), s.writers[w]) && Wins(s, s.writers[w])
    ensures var wr, chain := s.writers[w], Chain(s.published);
      && Replay(s.published + [wr.pub]) == wr.final
      && wr.final == LedgerState(Some(CommitCid(Last(wr.pub.commits))), Last(wr.pub.commits).t, chain + wr.pub.commits)
  {
    var wr, chain := s.writers[w], Chain(s.published);
    HeadAtInjective(chain, wr.base.t, |chain|);
    assert wr.base == Loaded(s);
    ChainSnoc(s.published, wr.pub);
  }

  /** Publishing complete commits keeps every cache and writer complete. */
  lemma PublishKeepsComplete(s: State, pub: Publication)
    requires AllComplete(s)
    ensures AllComplete(s.(published := s.published + [pub]))
  {
    var chain := Chain(s.published);
    ChainSnoc(s.published, pub);
    forall v | v in s.writers ensures WriterComplete(chain + pub.commits, s.writers[v]) {
      CompleteGrows(chain, chain + pub.commits, s.writers[v]);
    }
  }

  lemma ReplaceKeepsComplete(s: State, w: WriterId, wr: Writer, s': State)
    requires AllComplete(s) && WriterComplete(Chain(s.published), wr)
    requires s'.caches == s.caches && s'.published == s.published && s'.writers == s.writers[w := wr]
    ensures AllComplete(s')
  {
  }

  lemma CacheKeepsComplete(s: State, p: Proc, st: LedgerState, s': State)
    requires AllComplete(s) && Complete(Chain(s.published), st) && s' == s.(caches := s.caches[p := st])
    ensures AllComplete(s')
  {
  }

  lemma WinSerial(s: State, e: Event, s': State)
    requires Inv(s) && AllComplete(s) && Serial(s) && Next(s, e, s')
    requires e.CompareAndSet? && Wins(s, s.writers[e.w])
    ensures AllComplete(s') && Serial(s')
  {
    var wr := s.writers[e.w];
    WinIsSerial(s, e.w);
    ChainSnoc(s.published, wr.pub);
    WinKeepsInv(s, e.w, s.(head := s'.head, published := s'.published));
    PublishKeepsComplete(s, wr.pub);
    var chain' := Chain(s'.published);
    assert chain'[..|chain'|] == chain';
    ReplaceKeepsComplete(s.(published := s'.published), e.w, Won(wr.p, wr.final), s');
  }

  lemma StepSerial(s: State, e: Event, s': State)
    requires Inv(s) && AllComplete(s) && Serial(s) && Next(s, e, s') && FreshStep(s, e)
    ensures AllComplete(s') && Serial(s')
  {
    if Local(e) {
      NextWriterComplete(s, e);
      ReplaceKeepsComplete(s, e.w, NextWriter(s, e), s');
    } else {
      match e
      case CompareAndSet(w) =>
        if Wins(s, s.writers[w]) {
          WinSerial(s, e, s');
        } else {
          ReplaceKeepsComplete(s, w, Stopped, s');
        }
      case WriteObject(w) =>
        ReplaceKeepsComplete(s, w, s'.writers[w], s');
      case Install(w) =>
        var cached := s.(caches := s'.caches);
        CacheKeepsComplete(s, s.writers[w].p, s.writers[w].final, cached);
        ReplaceKeepsComplete(cached, w, Stopped, s');
      case Load(p) =>
        var chain := Chain(s.published);
        assert chain[..|chain|] == chain;
        CacheKeepsComplete(s, p, Loaded(s), s');
    }
  }

  /**
   * Serializability: in every run whose batches are staged over a cache that is at the durable
   * head, the published history equals running all publications, transactions by their
   * statements, one after another in publication order.
   */
  lemma {:induction false} RunIsSerial(ss: seq<State>, es: seq<Event>, i: nat)
    requires IsRun(ss, es) && i < |ss|
    requires forall k | 0 <= k < i :: FreshStep(ss[k], es[k])
    ensures AllComplete(ss[i]) && Serial(ss[i])
  {
    if i > 0 {
      RunIsSerial(ss, es, i - 1);
      RunKeepsInv(ss, es, i - 1);
      assert StepAt(ss, es, i - 1);
      StepSerial(ss[i - 1], es[i - 1], ss[i]);
    }
  }

  // ---------------------------------------------------------------------------
  // Batches over a stale cache
  // ---------------------------------------------------------------------------

  /**
   * Push and import check the batch against the durable head but build the state they install
   * from the cached one. The installed state is complete exactly when the cached head was the
   * durable head the batch was checked against, which is what `FreshStep` asks for.
   */
  lemma InstalledStateCompleteIff(s: State, w: WriterId)
    requires Inv(s) && w in s.writers && s.writers[w].Staged? && s.writers[w].todo == [] && Wins(s, s.writers[w])
    requires s.writers[w].pub.origin.Transferred? && Complete(Chain(s.published), s.writers[w].base)
    ensures var wr := s.writers[w];
      Complete(Chain(s.published) + wr.pub.commits, wr.final) <==> wr.base.head == ExpectedId(wr.expected)
  {
    var wr, chain := s.writers[w], Chain(s.published);
    WinAppends(s, w);
    ContinuesInstall(wr.base, ExpectedId(wr.expected), |chain|, wr.pub.commits);
    var chain' := chain + wr.pub.commits;
    assert chain'[..|chain'|] == chain';
    assert HeadAt(chain', |chain'|) == wr.final.head;
    if wr.base.head == ExpectedId(wr.expected) {
      HeadAtInjective(chain, wr.base.t, |chain|);
      assert chain[..|chain|] == chain;
    } else {
      assert |wr.final.log| < |chain'|;
    }
  }

  lemma Extend(ss: seq<State>, es: seq<Event>, e: Event) returns (ss': seq<State>, es': seq<Event>)
    requires IsRun(ss, es) && Enabled(Last(ss), e)
    ensures ss' == ss + [After(Last(ss), e)] && es' == es + [e] && IsRun(ss', es')
  {
    ss', es' := ss + [After(Last(ss), e)], es + [e];
    forall i | 0 <= i < |es'| ensures StepAt(ss', es', i) {
      if i < |es| { assert StepAt(ss, es, i); }
    }
  }
}
