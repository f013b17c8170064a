/**
 * The publication protocol: pushers, incremental importers and interactive transactions write
 * content-addressed objects and then move one durable head ref by compare-and-set. Any number of
 * writers run in any number of processes, one atomic step at a time, and may stop between steps.
 */
module Publication {
  import opened Ledger
  import opened PushValidation

  type Proc = nat
  type WriterId = nat

  /** A ledger state held in memory: the head it claims, its t, and the commits applied to it. */
  datatype LedgerState = LedgerState(head: Option<Cid>, t: int, log: seq<Commit>)

  const GENESIS := LedgerState(None, 0, [])

  /** What a statement stages. Nothing staged means a zero-effect statement. */
  datatype Change = Change(flakes: seq<Flake>, nsDelta: map<nat, string>)

  /** A write statement: what it stages depends only on the state it runs against. */
  type Statement = LedgerState -> Change

  /** Where a published run of commits came from. */
  datatype Origin = Transferred | Transaction(stmts: seq<Statement>)

  datatype Publication = Publication(commits: seq<Commit>, origin: Origin)

  datatype Object = Object(id: Cid, blob: Blob)

  datatype Writer =
    | Idle
    | Locked(p: Proc, base: LedgerState)
    | HeadRead(p: Proc, base: LedgerState, current: RefValue)
    | Open(p: Proc, base: LedgerState, state: LedgerState, pending: seq<Commit>, stmts: seq<Statement>)
    | Staged(p: Proc, base: LedgerState, expected: Option<RefValue>, todo: seq<Object>, final: LedgerState,
             pub: Publication)
    | Won(p: Proc, final: LedgerState)
    | Stopped

  /** `published` is a history variable: every head move so far, in order. */
  datatype State = State(
    store: map<Cid, Blob>,
    head: RefValue,
    caches: map<Proc, LedgerState>,
    writers: map<WriterId, Writer>,
    published: seq<Publication>)

  datatype Event =
    | Lock(w: WriterId, p: Proc)
    | ReadHead(w: WriterId)
    | Stage(w: WriterId, batch: seq<Commit>, provided: map<Cid, Blob>, txns: seq<Object>)
    | Begin(w: WriterId, p: Proc)
    | Execute(w: WriterId, stmt: Statement)
    | Commit(w: WriterId)
    | WriteObject(w: WriterId)
    | CompareAndSet(w: WriterId)
    | Install(w: WriterId)
    | Stop(w: WriterId)
    | Load(p: Proc)

  // ---------------------------------------------------------------------------
  // Sequential meaning of commits, statements and publications
  // ---------------------------------------------------------------------------

  function Last<T>(s: seq<T>): T
    requires s != []
  {
    s[|s| - 1]
  }

  /** `build_commit`: one past the state's t, with the state's head as the only parent. */
  function BuildCommit(st: LedgerState, ch: Change): Commit {
    Ledger.Commit(st.t + 1, if st.head.Some? then [st.head.value] else [], None, ch.flakes, ch.nsDelta)
  }

  /** Apply one commit to an in-memory state. */
  function Advance(st: LedgerState, c: Commit): LedgerState {
    LedgerState(Some(CommitCid(c)), MaxT(st.t, c.t), st.log + [c])
  }

  /** `apply_pushed_commits_to_state`: install a batch over a base state. */
  function InstallBatch(st: LedgerState, batch: seq<Commit>): LedgerState {
    if batch == [] then st
    else Advance(InstallBatch(st, batch[..|batch| - 1]), Last(batch))
  }

  /** One statement of a transaction: the commit it adds, if any. */
  function StatementCommits(st: LedgerState, stmt: Statement): seq<Commit> {
    var ch := stmt(st);
    if ch.flakes == [] then [] else [BuildCommit(st, ch)]
  }

  function RunStatement(st: LedgerState, stmt: Statement): LedgerState {
    InstallBatch(st, StatementCommits(st, stmt))
  }

  function RunAll(st: LedgerState, stmts: seq<Statement>): LedgerState {
    if stmts == [] then st
    else RunStatement(RunAll(st, stmts[..|stmts| - 1]), Last(stmts))
  }

  /** The effect of one publication when run alone against the state left by all before it. */
  function Apply(st: LedgerState, pub: Publication): LedgerState {
    match pub.origin
    case Transferred => InstallBatch(st, pub.commits)
    case Transaction(stmts) => RunAll(st, stmts)
  }

  /** Run every publication one after another. */
  function Replay(pubs: seq<Publication>): LedgerState {
    if pubs == [] then GENESIS else Apply(Replay(pubs[..|pubs| - 1]), Last(pubs))
  }

  /** All published commits, oldest first. */
  function Chain(pubs: seq<Publication>): seq<Commit> {
    if pubs == [] then [] else Chain(pubs[..|pubs| - 1]) + Last(pubs).commits
  }

  /** The head after the first `n` commits of a chain. */
  function HeadAt(chain: seq<Commit>, n: nat): Option<Cid>
    requires n <= |chain|
  {
    if n == 0 then None else Some(CommitCid(chain[n - 1]))
  }

  /** The state a process loads from the durable head. */
  function Loaded(s: State): LedgerState {
    LedgerState(s.head.id, s.head.t, Chain(s.published))
  }

  // ---------------------------------------------------------------------------
  // Steps
  // ---------------------------------------------------------------------------

  predicate Holds(w: Writer, p: Proc) {
    (w.Locked? || w.HeadRead? || w.Staged? || w.Won?) && w.p == p
  }

  ghost predicate Unlocked(s: State, p: Proc) {
    p in s.caches && forall v | v in s.writers :: !Holds(s.writers[v], p)
  }

  function CommitObjects(cs: seq<Commit>): (os: seq<Object>)
    ensures |os| == |cs| && forall i | 0 <= i < |cs| :: os[i] == Object(CommitCid(cs[i]), CommitBlob(cs[i]))
  {
    seq(|cs|, i requires 0 <= i < |cs| => Object(CommitCid(cs[i]), CommitBlob(cs[i])))
  }

  /** `txns` lists the referenced txn blobs, in some order, with the bytes provided for them. */
  ghost predicate ListsTxns(txns: seq<Object>, batch: seq<Commit>, provided: map<Cid, Blob>) {
    && (forall i | 0 <= i < |txns| ::
        txns[i].id in RequiredTxns(batch) && txns[i].id in provided && txns[i].blob == provided[txns[i].id])
    && (forall id | id in RequiredTxns(batch) :: exists i | 0 <= i < |txns| :: txns[i].id == id)
  }

  /** The head ref that publishing these commits moves to. */
  function Tip(cs: seq<Commit>): RefValue
    requires cs != []
  {
    RefValue(Some(CommitCid(Last(cs))), Last(cs).t)
  }

  /** What BEGIN keeps for the compare-and-set: no ref at all for a ledger without commits. */
  function Pinned(base: LedgerState): Option<RefValue> {
    if base.head.Some? then Some(RefValue(base.head, base.t)) else None
  }

  function ExpectedId(expected: Option<RefValue>): Option<Cid> {
    if expected.Some? then expected.value.id else None
  }

  /** The ledger has a nameservice record from its creation on. */
  predicate Wins(s: State, wr: Writer)
    requires wr.Staged?
  {
    wr.pub.commits != [] && CasUpdates(Some(s.head), wr.expected, Tip(wr.pub.commits))
  }

  ghost predicate Enabled(s: State, e: Event) {
    if e.Load? then Unlocked(s, e.p)
    else if e.w !in s.writers then false
    else
      var wr := s.writers[e.w];
      match e
      case Lock(_, p) => wr.Idle? && Unlocked(s, p)
      case ReadHead(_) => wr.Locked?
      case Stage(_, batch, provided, txns) =>
        wr.HeadRead? && BatchAccepted(wr.current, batch, provided) && ListsTxns(txns, batch, provided)
      case Begin(_, p) => wr.Idle? && Unlocked(s, p)
      case Execute(_, stmt) => wr.Open?
      case Commit(_) => wr.Open? && Unlocked(s, wr.p)
      case WriteObject(_) => wr.Staged? && wr.todo != []
      case CompareAndSet(_) => wr.Staged? && wr.todo == []
      case Install(_) => wr.Won?
      case Stop(_) => true
  }

  /** An open transaction after one more statement. */
  function Executed(wr: Writer, stmt: Statement): Writer
    requires wr.Open?
  {
    wr.(state := RunStatement(wr.state, stmt),
        pending := wr.pending + StatementCommits(wr.state, stmt),
        stmts := wr.stmts + [stmt])
  }

  function StagedBatch(wr: Writer, batch: seq<Commit>, txns: seq<Object>): Writer
    requires wr.HeadRead?
  {
    Staged(wr.p, wr.base, Some(wr.current), txns + CommitObjects(batch),
           InstallBatch(wr.base, batch), Publication(batch, Transferred))
  }

  /** `commit_cypher_transaction` up to its first write: the cached head must still be the base. */
  function StagedTransaction(wr: Writer, cached: LedgerState): Writer
    requires wr.Open?
  {
    if wr.pending == [] || cached.t != wr.base.t || cached.head != wr.base.head then Stopped
    else Staged(wr.p, wr.base, Pinned(wr.base), CommitObjects(wr.pending),
                wr.state, Publication(wr.pending, Transaction(wr.stmts)))
  }

  /** Events that only move one writer along. */
  predicate Local(e: Event) {
    !(e.WriteObject? || e.CompareAndSet? || e.Install? || e.Load?)
  }

  ghost function NextWriter(s: State, e: Event): Writer
    requires Enabled(s, e) && Local(e)
  {
    var wr := s.writers[e.w];
    match e
    case Lock(_, p) => Locked(p, s.caches[p])
    case ReadHead(_) => HeadRead(wr.p, wr.base, s.head)
    case Stage(_, batch, _, txns) => StagedBatch(wr, batch, txns)
    case Begin(_, p) => Open(p, s.caches[p], s.caches[p], [], [])
    case Execute(_, stmt) => Executed(wr, stmt)
    case Commit(_) => StagedTransaction(wr, s.caches[wr.p])
    case Stop(_) => Stopped
  }

  ghost function After(s: State, e: Event): State
    requires Enabled(s, e)
  {
    if Local(e) then s.(writers := s.writers[e.w := NextWriter(s, e)])
    else match e
      case WriteObject(w) =>
        var wr := s.writers[w];
        s.(store := s.store[wr.todo[0].id := wr.todo[0].blob],
           writers := s.writers[w := wr.(todo := wr.todo[1..])])
      case CompareAndSet(w) =>
        var wr := s.writers[w];
        if Wins(s, wr) then
          s.(head := Tip(wr.pub.commits),
             writers := s.writers[w := Won(wr.p, wr.final)],
             published := s.published + [wr.pub])
        else
          s.(writers := s.writers[w := Stopped])
      case Install(w) =>
        var wr := s.writers[w];
        s.(caches := s.caches[wr.p := wr.final], writers := s.writers[w := Stopped])
      case Load(p) => s.(caches := s.caches[p := Loaded(s)])
  }

  ghost predicate Next(s: State, e: Event, s': State) {
    Enabled(s, e) && s' == After(s, e)
  }

  /** A freshly created ledger, cached empty by every process, with every writer idle. */
  ghost predicate Init(s: State) {
    && s.store == map[] && s.head == RefValue(None, 0) && s.published == []
    && (forall p | p in s.caches :: s.caches[p] == GENESIS)
    && (forall w | w in s.writers :: s.writers[w] == Idle)
  }

  ghost predicate StepAt(ss: seq<State>, es: seq<Event>, i: nat)
    requires i < |es| && |ss| == |es| + 1
  {
    Next(ss[i], es[i], ss[i + 1])
  }

  ghost predicate IsRun(ss: seq<State>, es: seq<Event>) {
    && |ss| == |es| + 1
    && Init(ss[0])
    && forall i | 0 <= i < |es| :: StepAt(ss, es, i)
  }

  // ---------------------------------------------------------------------------
  // The invariant
  // ---------------------------------------------------------------------------

  /** `commits` continue a history of `n` commits whose head is `head`. */
  ghost predicate Continues(head: Option<Cid>, n: int, commits: seq<Commit>) {
    && (commits != [] ==> commits[0].t == n + 1)
    && (commits != [] && head.Some? ==> head.value in commits[0].parents)
    && (commits != [] && head.None? ==> commits[0].parents == [])
    && (forall i | 0 < i < |commits| :: Follows(commits, i))
  }

  ghost predicate ObjectStored(store: map<Cid, Blob>, id: Cid) {
    id in store && Verify(id, store[id])
  }

  /** A commit and the txn blob it refers to are stored under their own digests. */
  ghost predicate CommitStored(store: map<Cid, Blob>, c: Commit) {
    ObjectStored(store, CommitCid(c)) && (c.txn.Some? ==> ObjectStored(store, c.txn.value))
  }

  ghost predicate Pending(todo: seq<Object>, id: Cid) {
    exists i | 0 <= i < |todo| :: todo[i].id == id && Verify(id, todo[i].blob)
  }

  ghost predicate StoredOrPending(store: map<Cid, Blob>, todo: seq<Object>, id: Cid) {
    ObjectStored(store, id) || Pending(todo, id)
  }

  /** The state claims the head of some published prefix (its log is not constrained here). */
  ghost predicate AtPublishedHead(chain: seq<Commit>, st: LedgerState) {
    0 <= st.t <= |chain| && st.head == HeadAt(chain, st.t)
  }

  ghost predicate WriterOk(store: map<Cid, Blob>, chain: seq<Commit>, wr: Writer) {
    match wr
    case Idle => true
    case Stopped => true
    case Locked(_, base) => AtPublishedHead(chain, base)
    case HeadRead(_, base, current) =>
      && AtPublishedHead(chain, base)
      && base.t <= current.t <= |chain| && current.id == HeadAt(chain, current.t)
    case Open(_, base, state, pending, _) =>
      && AtPublishedHead(chain, base)
      && Continues(base.head, base.t, pending)
      && (forall i | 0 <= i < |pending| :: pending[i].txn.None?)
      && state.t == base.t + |pending|
      && state.head == if pending == [] then base.head else Some(CommitCid(Last(pending)))
    case Staged(_, base, expected, todo, final, pub) =>
      && AtPublishedHead(chain, base)
      && pub.commits != []
      && base.t <= pub.commits[0].t - 1 <= |chain|
      && ExpectedId(expected) == HeadAt(chain, pub.commits[0].t - 1)
      && Continues(ExpectedId(expected), pub.commits[0].t - 1, pub.commits)
      && (forall i | 0 <= i < |todo| :: Verify(todo[i].id, todo[i].blob))
      && (forall i | 0 <= i < |pub.commits| ::
          && StoredOrPending(store, todo, CommitCid(pub.commits[i]))
          && (pub.commits[i].txn.Some? ==> StoredOrPending(store, todo, pub.commits[i].txn.value)))
      && final.head == Some(CommitCid(Last(pub.commits))) && final.t == Last(pub.commits).t
      && (if pub.origin.Transaction? then expected == Pinned(base) else final == InstallBatch(base, pub.commits))
    case Won(_, final) => AtPublishedHead(chain, final)
  }

  ghost predicate Inv(s: State) {
    var chain := Chain(s.published);
    && Continues(None, 0, chain)
    && s.head == RefValue(HeadAt(chain, |chain|), |chain|)
    && (forall i | 0 <= i < |chain| :: CommitStored(s.store, chain[i]))
    && (forall p | p in s.caches :: AtPublishedHead(chain, s.caches[p]))
    && (forall w | w in s.writers :: WriterOk(s.store, chain, s.writers[w]))
  }

  // ---------------------------------------------------------------------------
  // Every step keeps the invariant
  // ---------------------------------------------------------------------------

  lemma {:induction false} ChainSnoc(pubs: seq<Publication>, pub: Publication)
    ensures Chain(pubs + [pub]) == Chain(pubs) + pub.commits
    ensures Replay(pubs + [pub]) == Apply(Replay(pubs), pub)
  {
    assert (pubs + [pub])[..|pubs|] == pubs;
  }

  /** A commit's position in a history that starts at genesis is its t. */
  lemma {:induction false} ContinuesT(head: Option<Cid>, n: int, cs: seq<Commit>, i: nat)
    requires Continues(head, n, cs) && i < |cs|
    ensures cs[i].t == n + i + 1
  {
    if i > 0 {
      ContinuesT(head, n, cs, i - 1);
      assert Follows(cs, i);
    }
  }

  lemma {:induction false} InstallBatchShape(st: LedgerState, batch: seq<Commit>)
    requires batch != []
    requires forall i | 0 <= i < |batch| :: st.t <= batch[i].t <= Last(batch).t
    ensures InstallBatch(st, batch) == LedgerState(Some(CommitCid(Last(batch))), Last(batch).t, st.log + batch)
  {
    var init, last := batch[..|batch| - 1], Last(batch);
    assert st.t <= batch[|batch| - 1].t;
    forall i | 0 <= i < |init| ensures init[i].t <= last.t { assert init[i] == batch[i]; }
    InstallBatchLogT(st, init, last.t);
    assert st.log + init + [last] == st.log + batch;
  }

  lemma {:induction false} InstallBatchLogT(st: LedgerState, batch: seq<Commit>, bound: int)
    requires st.t <= bound && forall i | 0 <= i < |batch| :: batch[i].t <= bound
    ensures InstallBatch(st, batch).log == st.log + batch
    ensures InstallBatch(st, batch).t <= bound
  {
    if batch != [] {
      var init := batch[..|batch| - 1];
      InstallBatchLogT(st, init, bound);
      assert st.log + init + [Last(batch)] == st.log + batch;
    }
  }

  lemma ContinuesInstall(st: LedgerState, head: Option<Cid>, n: int, batch: seq<Commit>)
    requires batch != [] && Continues(head, n, batch) && st.t <= n
    ensures InstallBatch(st, batch) == LedgerState(Some(CommitCid(Last(batch))), n + |batch|, st.log + batch)
  {
    forall i | 0 <= i < |batch| ensures st.t <= batch[i].t <= Last(batch).t {
      ContinuesT(head, n, batch, i);
      ContinuesT(head, n, batch, |batch| - 1);
    }
    ContinuesT(head, n, batch, |batch| - 1);
    InstallBatchShape(st, batch);
  }

  /** The head after `cs` have been published on top of `head`. */
  function HeadAfter(head: Option<Cid>, cs: seq<Commit>): Option<Cid> {
    if cs == [] then head else Some(CommitCid(Last(cs)))
  }

  /** Histories compose. */
  lemma ContinuesAppend(head: Option<Cid>, n: int, xs: seq<Commit>, ys: seq<Commit>)
    requires Continues(head, n, xs) && Continues(HeadAfter(head, xs), n + |xs|, ys)
    ensures Continues(head, n, xs + ys)
  {
    var all := xs + ys;
    forall i | 0 < i < |all| ensures Follows(all, i) {
      if i < |xs| {
        assert Follows(xs, i);
      } else if i == |xs| {
        ContinuesT(head, n, xs, i - 1);
        var k :| 0 <= k < |ys[0].parents| && ys[0].parents[k] == CommitCid(xs[i - 1]);
        assert all[i].parents[k].digest == CommitBlob(all[i - 1]);
      } else {
        assert Follows(ys, i - |xs|);
        assert all[i] == ys[i - |xs|] && all[i - 1] == ys[i - 1 - |xs|];
      }
    }
  }

  /** Distinct positions of a history have distinct heads. */
  lemma HeadAtInjective(chain: seq<Commit>, m: nat, n: nat)
    requires Continues(None, 0, chain) && m <= |chain| && n <= |chain|
    requires HeadAt(chain, m) == HeadAt(chain, n)
    ensures m == n
  {
    if m > 0 && n > 0 {
      ContinuesT(None, 0, chain, m - 1);
      ContinuesT(None, 0, chain, n - 1);
    }
  }

  /** What a writer relies on survives other writers' object writes and head moves. */
  lemma WriterOkMonotone(store: map<Cid, Blob>, store': map<Cid, Blob>, chain: seq<Commit>, chain': seq<Commit>,
                         wr: Writer)
    requires forall id | ObjectStored(store, id) :: ObjectStored(store', id)
    requires chain <= chain'
    requires WriterOk(store, chain, wr)
    ensures WriterOk(store', chain', wr)
  {
    if wr.Staged? {
      forall i | 0 <= i < |wr.pub.commits|
        ensures StoredOrPending(store', wr.todo, CommitCid(wr.pub.commits[i]))
        ensures wr.pub.commits[i].txn.Some? ==> StoredOrPending(store', wr.todo, wr.pub.commits[i].txn.value)
      {
        assert StoredOrPending(store, wr.todo, CommitCid(wr.pub.commits[i]));
      }
    }
  }

  /** Replacing one writer in a state that otherwise stays the same. */
  lemma InvWriter(s: State, w: WriterId, wr: Writer, s': State)
    requires Inv(s) && s' == s.(writers := s.writers[w := wr])
    requires WriterOk(s.store, Chain(s.published), wr)
    ensures Inv(s')
  {
  }

  /** An accepted batch continues the history of the head it was checked against. */
  /** A batch is accepted exactly when it continues the current head, has no empty commit and its blobs. */
  lemma AcceptedIffContinues(current: RefValue, batch: seq<Commit>, provided: map<Cid, Blob>)
    ensures BatchAccepted(current, batch, provided) <==>
      && batch != [] && (forall i | 0 <= i < |batch| :: batch[i].flakes != [])
      && BlobsProvided(batch, provided) && Continues(current.id, current.t, batch)
  {
  }

  lemma StagedBatchOk(store: map<Cid, Blob>, chain: seq<Commit>, wr: Writer, batch: seq<Commit>,
                      provided: map<Cid, Blob>, txns: seq<Object>)
    requires wr.HeadRead? && WriterOk(store, chain, wr)
    requires BatchAccepted(wr.current, batch, provided) && ListsTxns(txns, batch, provided)
    ensures WriterOk(store, chain, StagedBatch(wr, batch, txns))
  {
    var n := wr.current.t;
    AcceptedIffContinues(wr.current, batch, provided);
    ContinuesInstall(wr.base, wr.current.id, n, batch);
    ContinuesT(wr.current.id, n, batch, |batch| - 1);
    TodoCovers(store, batch, provided, txns);
  }

  /** Everything a batch needs is on its list of objects to write, under its own digest. */
  lemma TodoCovers(store: map<Cid, Blob>, batch: seq<Commit>, provided: map<Cid, Blob>, txns: seq<Object>)
    requires BlobsProvided(batch, provided) && ListsTxns(txns, batch, provided)
    ensures var todo := txns + CommitObjects(batch);
      && (forall i | 0 <= i < |todo| :: Verify(todo[i].id, todo[i].blob))
      && forall i | 0 <= i < |batch| ::
        && StoredOrPending(store, todo, CommitCid(batch[i]))
        && (batch[i].txn.Some? ==> StoredOrPending(store, todo, batch[i].txn.value))
  {
    var todo := txns + CommitObjects(batch);
    forall i | 0 <= i < |batch|
      ensures StoredOrPending(store, todo, CommitCid(batch[i]))
      ensures batch[i].txn.Some? ==> StoredOrPending(store, todo, batch[i].txn.value)
    {
      assert todo[|txns| + i] == CommitObjects(batch)[i];
      if batch[i].txn.Some? {
        var id := batch[i].txn.value;
        assert id in RequiredTxns(batch);
        var k :| 0 <= k < |txns| && txns[k].id == id;
        assert todo[k] == txns[k];
      }
    }
  }

  lemma InstallOne(st: LedgerState, c: Commit)
    ensures InstallBatch(st, [c]) == Advance(st, c)
  {
    assert [c][..0] == [];
    assert InstallBatch(st, [c][..0]) == st;
  }

  /** A commit built on the private head continues the pending commits. */
  lemma ContinuesSnoc(head: Option<Cid>, n: int, cs: seq<Commit>, c: Commit)
    requires Continues(head, n, cs) && c.t == n + |cs| + 1
    requires cs == [] ==> c.parents == if head.Some? then [head.value] else []
    requires cs != [] ==> c.parents == [CommitCid(Last(cs))]
    ensures Continues(head, n, cs + [c])
  {
    var all := cs + [c];
    forall i | 0 < i < |all| ensures Follows(all, i) {
      if i < |cs| {
        assert Follows(cs, i);
      } else {
        ContinuesT(head, n, cs, |cs| - 1);
        assert c.parents[0].digest == CommitBlob(Last(cs));
      }
    }
  }

  lemma ExecutedOk(store: map<Cid, Blob>, chain: seq<Commit>, wr: Writer, stmt: Statement)
    requires wr.Open? && WriterOk(store, chain, wr)
    ensures WriterOk(store, chain, Executed(wr, stmt))
  {
    var ch := stmt(wr.state);
    if ch.flakes == [] {
      assert wr.pending + [] == wr.pending;
    } else {
      var c := BuildCommit(wr.state, ch);
      InstallOne(wr.state, c);
      ContinuesSnoc(wr.base.head, wr.base.t, wr.pending, c);
    }
  }

  lemma StagedTransactionOk(store: map<Cid, Blob>, chain: seq<Commit>, wr: Writer, cached: LedgerState)
    requires wr.Open? && WriterOk(store, chain, wr)
    ensures WriterOk(store, chain, StagedTransaction(wr, cached))
  {
    var wr' := StagedTransaction(wr, cached);
    if wr'.Staged? {
      ContinuesT(wr.base.head, wr.base.t, wr.pending, |wr.pending| - 1);
      forall i | 0 <= i < |wr.pending| ensures StoredOrPending(store, wr'.todo, CommitCid(wr.pending[i])) {
        assert wr'.todo[i].id == CommitCid(wr.pending[i]);
      }
    }
  }

  lemma NextWriterOk(s: State, e: Event)
    requires Inv(s) && Enabled(s, e) && Local(e)
    ensures WriterOk(s.store, Chain(s.published), NextWriter(s, e))
  {
    var chain, wr := Chain(s.published), s.writers[e.w];
    match e
    case Stage(_, batch, provided, txns) => StagedBatchOk(s.store, chain, wr, batch, provided, txns);
    case Execute(_, stmt) => ExecutedOk(s.store, chain, wr, stmt);
    case Commit(_) => StagedTransactionOk(s.store, chain, wr, s.caches[wr.p]);
    case _ =>
  }

  /** Writing the next object on the list leaves every need met. */
  lemma WroteFirst(store: map<Cid, Blob>, todo: seq<Object>, store': map<Cid, Blob>)
    requires todo != [] && store' == store[todo[0].id := todo[0].blob]
    requires Verify(todo[0].id, todo[0].blob)
    ensures forall id | ObjectStored(store, id) :: ObjectStored(store', id)
    ensures forall id | StoredOrPending(store, todo, id) :: StoredOrPending(store', todo[1..], id)
  {
    forall id | StoredOrPending(store, todo, id) ensures StoredOrPending(store', todo[1..], id) {
      if !ObjectStored(store, id) {
        var k :| 0 <= k < |todo| && todo[k].id == id && Verify(id, todo[k].blob);
        if k > 0 { assert todo[1..][k - 1] == todo[k]; }
      }
    }
  }

  lemma WroteObjectOk(store: map<Cid, Blob>, chain: seq<Commit>, wr: Writer, store': map<Cid, Blob>)
    requires wr.Staged? && wr.todo != [] && WriterOk(store, chain, wr)
    requires store' == store[wr.todo[0].id := wr.todo[0].blob]
    ensures WriterOk(store', chain, wr.(todo := wr.todo[1..]))
  {
    WroteFirst(store, wr.todo, store');
    var rest := wr.todo[1..];
    forall i | 0 <= i < |rest| ensures Verify(rest[i].id, rest[i].blob) { assert rest[i] == wr.todo[i + 1]; }
    forall i | 0 <= i < |wr.pub.commits|
      ensures StoredOrPending(store', rest, CommitCid(wr.pub.commits[i]))
      ensures wr.pub.commits[i].txn.Some? ==> StoredOrPending(store', rest, wr.pub.commits[i].txn.value)
    {
      assert StoredOrPending(store, wr.todo, CommitCid(wr.pub.commits[i]));
    }
  }

  /** Storing more objects keeps every part of the invariant that names the store. */
  lemma InvStore(s: State, store': map<Cid, Blob>, s': State)
    requires Inv(s) && s' == s.(store := store')
    requires forall id | ObjectStored(s.store, id) :: ObjectStored(store', id)
    ensures Inv(s')
  {
    var chain := Chain(s.published);
    forall v | v in s.writers ensures WriterOk(store', chain, s.writers[v]) {
      WriterOkMonotone(s.store, store', chain, chain, s.writers[v]);
    }
    forall i | 0 <= i < |chain| ensures CommitStored(store', chain[i]) {
      assert CommitStored(s.store, chain[i]);
    }
  }

  lemma WriteObjectKeepsInv(s: State, e: Event, s': State)
    requires Inv(s) && e.WriteObject? && Next(s, e, s')
    ensures Inv(s')
  {
    var wr := s.writers[e.w];
    var stored := s.(store := s'.store);
    WroteFirst(s.store, wr.todo, s'.store);
    WroteObjectOk(s.store, Chain(s.published), wr, s'.store);
    InvStore(s, s'.store, stored);
    InvWriter(stored, e.w, wr.(todo := wr.todo[1..]), s');
  }

  /** A winning compare-and-set appends exactly the writer's commits to the published history. */
  lemma WinAppends(s: State, w: WriterId)
    requires Inv(s) && w in s.writers && s.writers[w].Staged? && s.writers[w].todo == [] && Wins(s, s.writers[w])
    ensures var pub, chain := s.writers[w].pub, Chain(s.published);
      && pub.commits[0].t == |chain| + 1
      && Continues(HeadAt(chain, |chain|), |chain|, pub.commits)
      && Continues(None, 0, chain + pub.commits)
      && Last(pub.commits).t == |chain| + |pub.commits|
      && forall i | 0 <= i < |pub.commits| :: CommitStored(s.store, pub.commits[i])
  {
    var wr, chain := s.writers[w], Chain(s.published);
    HeadAtInjective(chain, wr.pub.commits[0].t - 1, |chain|);
    ContinuesAppend(None, 0, chain, wr.pub.commits);
    ContinuesT(ExpectedId(wr.expected), |chain|, wr.pub.commits, |wr.pub.commits| - 1);
    forall i | 0 <= i < |wr.pub.commits| ensures CommitStored(s.store, wr.pub.commits[i]) {
      assert StoredOrPending(s.store, [], CommitCid(wr.pub.commits[i]));
    }
  }

  /** Publishing more commits keeps every part of the invariant that names the history. */
  lemma InvExtend(s: State, pub: Publication, s': State)
    requires Inv(s) && pub.commits != []
    requires Continues(None, 0, Chain(s.published) + pub.commits)
    requires forall i | 0 <= i < |pub.commits| :: CommitStored(s.store, pub.commits[i])
    requires s' == s.(head := RefValue(Some(CommitCid(Last(pub.commits))), |Chain(s.published)| + |pub.commits|),
                      published := s.published + [pub])
    ensures Inv(s') && Chain(s'.published) == Chain(s.published) + pub.commits
  {
    var chain := Chain(s.published);
    var chain' := chain + pub.commits;
    ChainSnoc(s.published, pub);
    assert HeadAt(chain', |chain'|) == Some(CommitCid(Last(pub.commits)));
    forall i | 0 <= i < |chain'| ensures CommitStored(s'.store, chain'[i]) {
      assert i >= |chain| ==> chain'[i] == pub.commits[i - |chain|];
    }
    forall v | v in s'.writers ensures WriterOk(s'.store, chain', s'.writers[v]) {
      WriterOkMonotone(s.store, s'.store, chain, chain', s.writers[v]);
    }
  }

  lemma WinKeepsInv(s: State, w: WriterId, moved: State)
    requires Inv(s) && w in s.writers && s.writers[w].Staged? && s.writers[w].todo == [] && Wins(s, s.writers[w])
    requires var pub := s.writers[w].pub;
      moved == s.(head := RefValue(Some(CommitCid(Last(pub.commits))), Last(pub.commits).t),
                  published := s.published + [pub])
    ensures Inv(moved) && AtPublishedHead(Chain(moved.published), s.writers[w].final)
  {
    WinAppends(s, w);
    InvExtend(s, s.writers[w].pub, moved);
  }

  lemma CompareAndSetKeepsInv(s: State, e: Event, s': State)
    requires Inv(s) && e.CompareAndSet? && Next(s, e, s')
    ensures Inv(s')
  {
    var wr := s.writers[e.w];
    if Wins(s, wr) {
      var moved := s.(head := s'.head, published := s'.published);
      WinKeepsInv(s, e.w, moved);
      InvWriter(moved, e.w, Won(wr.p, wr.final), s');
    } else {
      InvWriter(s, e.w, Stopped, s');
    }
  }

  lemma InstallKeepsInv(s: State, p: Proc, st: LedgerState, s': State)
    requires Inv(s) && AtPublishedHead(Chain(s.published), st) && s' == s.(caches := s.caches[p := st])
    ensures Inv(s')
  {
  }

  lemma StepKeepsInv(s: State, e: Event, s': State)
    requires Inv(s) && Next(s, e, s')
    ensures Inv(s')
  {
    if Local(e) {
      NextWriterOk(s, e);
      InvWriter(s, e.w, NextWriter(s, e), s');
    } else {
      match e
      case WriteObject(_) => WriteObjectKeepsInv(s, e, s');
      case CompareAndSet(_) => CompareAndSetKeepsInv(s, e, s');
      case Install(w) =>
        var cached := s.(caches := s'.caches);
        InstallKeepsInv(s, s.writers[w].p, s.writers[w].final, cached);
        InvWriter(cached, w, Stopped, s');
      case Load(p) => InstallKeepsInv(s, p, Loaded(s), s');
    }
  }

  lemma {:induction false} RunKeepsInv(ss: seq<State>, es: seq<Event>, i: nat)
    requires IsRun(ss, es) && i < |ss|
    ensures Inv(ss[i])
  {
    if i > 0 {
      RunKeepsInv(ss, es, i - 1);
      assert StepAt(ss, es, i - 1);
      StepKeepsInv(ss[i - 1], es[i - 1], ss[i]);
    }
  }
}
