/**
 * A run in which a batch is installed over a stale cache and a later transaction, though its
 * compare-and-set wins, has a result that no order of the publications explains.
 */
module StaleCache {
  import opened Ledger
  import opened PushValidation
  import opened Publication
  import opened PublicationSafety
  import opened Serializability
  import opened TransferRuns

  const P: Proc := 0

  /** Push one commit in process P, up to and including the winning compare-and-set. */
  lemma PushOne(ss: seq<State>, es: seq<Event>, w: WriterId, c: Commit) returns (ss': seq<State>, es': seq<Event>)
    requires IsRun(ss, es)
    requires w in Last(ss).writers && Last(ss).writers[w].Idle? && Unlocked(Last(ss), P)
    requires c.txn.None? && c.flakes != [] && Preflight(Last(ss).head, c).None?
    ensures IsRun(ss', es')
    ensures var s := Last(ss);
      Last(ss') == State(Last(ss').store, RefValue(Some(CommitCid(c)), c.t), s.caches,
                         s.writers[w := Won(P, InstallBatch(s.caches[P], [c]))],
                         s.published + [Publication([c], Transferred)])
  {
    var s := Last(ss);
    assert BatchAccepted(s.head, [c], map[]);
    ss', es' := StageBatch(ss, es, w, P, [c], map[], []);
    var wr := StagedBatch(HeadRead(P, s.caches[P], s.head), [c], []);
    ss', es' := WriteAll(ss', es', ss', es', w);
    ss', es' := Extend(ss', es', CompareAndSet(w));
    var won := Won(P, InstallBatch(s.caches[P], [c]));
    assert s.writers[w := wr][w := wr.(todo := [])][w := won] == s.writers[w := won];
  }

  /** Records whether the state it ran against holds the second commit without the first. */
  function Witness(c1: Commit, c2: Commit): Statement {
    (st: LedgerState) => Change([Assertion(if c2 in st.log && c1 !in st.log then "torn" else "whole")], map[])
  }

  /** Two chained pushes, the first one stopping between its compare-and-set and its install. */
  lemma TwoPushes(c1: Commit, c2: Commit) returns (ss: seq<State>, es: seq<Event>)
    requires c1.t == 1 && c1.parents == [] && c1.txn.None? && c1.flakes != []
    requires c2.t == 2 && c2.parents == [CommitCid(c1)] && c2.txn.None? && c2.flakes != []
    ensures IsRun(ss, es) && Unlocked(Last(ss), P)
    ensures Last(ss).caches[P] == LedgerState(Some(CommitCid(c2)), 2, [c2])
    ensures Last(ss).head == RefValue(Some(CommitCid(c2)), 2)
    ensures Last(ss).published == [] + [Publication([c1], Transferred)] + [Publication([c2], Transferred)]
    ensures 2 in Last(ss).writers && Last(ss).writers[2] == Idle
  {
    var s0 := State(map[], RefValue(None, 0), map[P := GENESIS], map[0 := Idle, 1 := Idle, 2 := Idle], []);
    ss, es := [s0], [];
    ss, es := PushOne(ss, es, 0, c1);
    ss, es := Extend(ss, es, Stop(0));
    ss, es := PushOne(ss, es, 1, c2);
    ss, es := Extend(ss, es, Install(1));
    InstallOne(GENESIS, c2);
  }

  // ---------------------------------------------------------------------------
  // Serial orders
  // ---------------------------------------------------------------------------

  /** An order to run the publications in; batches, chained on one another, keep their order. */
  ghost predicate IsOrder(pubs: seq<Publication>, order: seq<nat>) {
    && |order| == |pubs|
    && (forall k | 0 <= k < |order| :: order[k] < |pubs|)
    && (forall k, j | 0 <= k < j < |order| :: order[k] != order[j])
    && (forall k, j | 0 <= k < j < |order| ::
          pubs[order[k]].origin.Transferred? && pubs[order[j]].origin.Transferred? ==> order[k] < order[j])
  }

  /** Run the listed publications one after another. */
  function ReplayIn(pubs: seq<Publication>, order: seq<nat>): LedgerState
    requires forall k | 0 <= k < |order| :: order[k] < |pubs|
  {
    if order == [] then GENESIS
    else Apply(ReplayIn(pubs, order[..|order| - 1]), pubs[Last(order)])
  }

  function FlakesOf(cs: seq<Commit>): seq<seq<Flake>> {
    seq(|cs|, i requires 0 <= i < |cs| => cs[i].flakes)
  }

  /** Run at position `k` of the order, the transaction stages the flakes it published. */
  ghost predicate ExplainedAt(pubs: seq<Publication>, order: seq<nat>, k: nat)
    requires k < |order| && forall j | 0 <= j < |order| :: order[j] < |pubs|
  {
    var pub := pubs[order[k]];
    pub.origin.Transaction? ==>
      FlakesOf(Built(ReplayIn(pubs, order[..k]), pub.origin.stmts)) == FlakesOf(pub.commits)
  }

  /** The order gives every transaction the result it published. */
  ghost predicate Explains(pubs: seq<Publication>, order: seq<nat>) {
    IsOrder(pubs, order) && forall k | 0 <= k < |order| :: ExplainedAt(pubs, order, k)
  }

  function Pubs(c1: Commit, c2: Commit, p3: Publication): seq<Publication> {
    [Publication([c1], Transferred), Publication([c2], Transferred), p3]
  }

  /** Whatever runs before the third publication, the second commit never comes without the first. */
  lemma ThirdSeesBoth(c1: Commit, c2: Commit, p3: Publication, order: seq<nat>, k: nat)
    requires p3.origin.Transaction? && IsOrder(Pubs(c1, c2, p3), order) && k < 3 && order[k] == 2
    ensures var log := ReplayIn(Pubs(c1, c2, p3), order[..k]).log; c2 in log ==> c1 in log
  {
    var pubs := Pubs(c1, c2, p3);
    InstallOne(GENESIS, c1);
    if k == 0 {
      assert order[..k] == [];
    } else if k == 1 {
      assert pubs[0].origin.Transferred? && pubs[1].origin.Transferred?;
      assert order[0] != order[1] && order[2] != order[1] && order[0] < order[2];
      assert order[..k] == [0] && [0][..0] == [];
      assert ReplayIn(pubs, [0]) == Apply(ReplayIn(pubs, []), pubs[0]);
    } else {
      assert order[..k] == [0, 1] && [0, 1][..1] == [0] && [0][..0] == [];
      InstallOne(Advance(GENESIS, c1), c2);
      assert ReplayIn(pubs, [0]) == Apply(ReplayIn(pubs, []), pubs[0]);
      assert ReplayIn(pubs, [0, 1]) == Apply(ReplayIn(pubs, [0]), pubs[1]);
    }
  }

  lemma TornIsUnexplained(c1: Commit, c2: Commit, p3: Publication, order: seq<nat>, k: nat)
    requires p3.origin == Transaction([Witness(c1, c2)])
    requires |p3.commits| == 1 && p3.commits[0].flakes == [Assertion("torn")]
    requires IsOrder(Pubs(c1, c2, p3), order) && k < 3 && order[k] == 2
    ensures !ExplainedAt(Pubs(c1, c2, p3), order, k)
  {
    var stmt, st := Witness(c1, c2), ReplayIn(Pubs(c1, c2, p3), order[..k]);
    ThirdSeesBoth(c1, c2, p3, order, k);
    BuiltByOne(st, stmt);
    assert FlakesOf(Built(st, [stmt]))[0] == [Assertion("whole")];
    assert FlakesOf(p3.commits)[0] == [Assertion("torn")];
    assert "whole"[0] != "torn"[0];
  }

  lemma NoOrderTears(c1: Commit, c2: Commit, p3: Publication, order: seq<nat>)
    requires p3.origin == Transaction([Witness(c1, c2)])
    requires |p3.commits| == 1 && p3.commits[0].flakes == [Assertion("torn")]
    ensures !Explains(Pubs(c1, c2, p3), order)
  {
    if IsOrder(Pubs(c1, c2, p3), order) {
      var k := ThirdIsSomewhere(order);
      TornIsUnexplained(c1, c2, p3, order, k);
    }
  }

  lemma ThirdIsSomewhere(order: seq<nat>) returns (k: nat)
    requires |order| == 3 && (forall k | 0 <= k < 3 :: order[k] < 3)
    requires forall k, j | 0 <= k < j < 3 :: order[k] != order[j]
    ensures k < 3 && order[k] == 2
  {
    k := if order[0] == 2 then 0 else if order[1] == 2 then 1 else 2;
    assert order[0] != order[1] && order[1] != order[2] && order[0] != order[2];
  }

  /**
   * The first push stops between its winning compare-and-set and the cache install, so the second
   * push, correctly chained onto the durable head, installs a state that lacks the first commit.
   * The transaction that follows publishes a result that no order of the three gives.
   */
  lemma StaleInstallBreaksSerial() returns (ss: seq<State>, es: seq<Event>)
    ensures IsRun(ss, es) && !Serial(Last(ss))
    ensures forall order :: !Explains(Last(ss).published, order)
  {
    var c1 := Ledger.Commit(1, [], None, [Assertion("a")], map[]);
    var c2 := Ledger.Commit(2, [CommitCid(c1)], None, [Assertion("b")], map[]);
    var stmt := Witness(c1, c2);
    ss, es := TwoPushes(c1, c2);
    var stale := Last(ss).caches[P];
    BuiltByOne(stale, stmt);
    ss, es := CommittedTransactionIsARun(ss, es, 2, P, [stmt]);
    var c3 := BuildCommit(stale, stmt(stale));
    var p3 := Publication([c3], Transaction([stmt]));
    assert Last(ss).published == Pubs(c1, c2, p3);
    assert c1.flakes[0].fact.s != c2.flakes[0].fact.s;
    assert c3.flakes == [Assertion("torn")];
    forall order ensures !Explains(Last(ss).published, order) {
      NoOrderTears(c1, c2, p3, order);
    }
    NotSerial(c1, c2, p3, Last(ss));
  }

  lemma AfterTwoPushes(c1: Commit, c2: Commit)
    ensures Replay([] + [Publication([c1], Transferred)] + [Publication([c2], Transferred)]).log == [c1, c2]
  {
    var p1, p2 := Publication([c1], Transferred), Publication([c2], Transferred);
    ChainSnoc([], p1);
    ChainSnoc([] + [p1], p2);
    InstallOne(GENESIS, c1);
    InstallOne(Advance(GENESIS, c1), c2);
  }

  lemma NotSerial(c1: Commit, c2: Commit, p3: Publication, s: State)
    requires p3.origin == Transaction([Witness(c1, c2)])
    requires |p3.commits| == 1 && p3.commits[0].flakes == [Assertion("torn")]
    requires s.published == Pubs(c1, c2, p3)
    ensures !Serial(s)
  {
    var pubs := [] + [Publication([c1], Transferred)] + [Publication([c2], Transferred)];
    AfterTwoPushes(c1, c2);
    assert Witness(c1, c2)(Replay(pubs)).flakes[0] == Assertion("whole");
    assert "whole"[0] != "torn"[0];
    OtherFlakesNotSerial(pubs, p3, Witness(c1, c2), s);
  }
}
