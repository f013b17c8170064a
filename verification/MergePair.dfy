/**
 * Running the match branch and the create branch of a per-row MERGE against the same graph is
 * find-or-create row by row, exactly when no two rows the graph lacks are the same, no row is about
 * an edge that has no reifier, and no matched reifier loses its last property.
 */
module MergePair {
  import opened Ledger
  import opened CypherMerge
  import opened MergeMeaning

  function Pair(j: Job, g: Graph): Graph {
    Install(g, Concat(Cascade(g, SetDelta(g, MatchedBy(g, j.p, j.rows), j.onMatch)),
                      CreateDelta(g, j.p, j.rows, j.onCreate)))
  }

  /** A plain edge without a reifier, which the match branch misses and the create guard sees. */
  predicate Stuck(g: Graph, p: Pattern, row: Row) {
    row.link.Some? && !p.inline && EdgeOf(row.link.value) in g && Absent(g, p, row)
  }

  /**
   * A row takes exactly one branch, found or created, unless it is stuck: its relationship is in
   * the graph as a plain edge without a reifier and its pattern has no property map.
   */
  lemma OneBranchIff(g: Graph, p: Pattern, row: Row)
    ensures !(Matched(g, p, row) != {} && Guard(g, p, row))
    ensures Matched(g, p, row) != {} || Guard(g, p, row) <==> !Stuck(g, p, row)
  {
    if row.link.Some? && Matched(g, p, row) != {} {
      var s :| s in Matched(g, p, row);
      assert EdgeOf(row.link.value) in EdgesOf(row);
    }
  }

  /** Some row lets the create branch assert this edge. */
  ghost predicate EdgePaired(j: Job, g: Graph, x: Triple) {
    exists k :: 0 <= k < |j.rows| && Guard(g, j.p, j.rows[k]) && x in EdgesOf(j.rows[k])
  }

  /**
   * The items assert nothing and remove everything the entity carries, which is something, and it
   * stands for one edge.
   */
  predicate Emptying(g: Graph, items: seq<Item>, s: Entity) {
    && Asserts(items) == {} && Metadata(g, s) != {} && |LinksOf(g, s)| == 1
    && forall f | f in Metadata(g, s) :: f.Prop? && f.key in Keys(items)
  }

  /** An entity is emptied by a SET exactly when the SET only removes, and removes all it has. */
  lemma EmptiedIff(g: Graph, ss: set<Entity>, items: seq<Item>, s: Entity)
    ensures Emptied(g, SetDelta(g, ss, items), s) <==> s in ss && Emptying(g, items, s)
  {
    var d := SetDelta(g, ss, items);
    RetractedMetadata(g, ss, items, s);
    if s in ss && Asserts(items) != {} {
      var f :| f in Asserts(items);
      AssertKeys(items, f);
      assert Triple(s, f) in d.asserts && f in Metadata(Install(g, d), s);
    }
    if s in ss && Asserts(items) == {} {
      assert d.asserts == {};
      LeftMetadata(g, d, s);
    }
  }

  /** The SET retracts the named properties of the entities it sets. */
  lemma RetractedMetadata(g: Graph, ss: set<Entity>, items: seq<Item>, s: Entity)
    ensures forall f :: f in Metadata(SetDelta(g, ss, items).retracts, s) <==>
      s in ss && f in Metadata(g, s) && f.Prop? && f.key in Keys(items)
  {
  }

  lemma LeftMetadata(g: Graph, d: Delta, s: Entity)
    requires d.asserts == {}
    ensures Metadata(Install(g, d), s) == Metadata(g, s) - Metadata(d.retracts, s)
  {
    forall f ensures f in Metadata(Install(g, d), s) <==> f in Metadata(g, s) - Metadata(d.retracts, s) {
    }
  }

  /** The reifier's last property goes, and the reifier with it. */
  ghost predicate Vanishes(j: Job, g: Graph, x: Triple) {
    x.f.Reifies? && Touched(j, g, |j.rows|, x.s) && Emptying(g, j.onMatch, x.s)
  }

  ghost predicate PairExpected(j: Job, g: Graph, x: Triple) {
    match x.s
    case Stored(_) =>
      EdgePaired(j, g, x) || (!Vanishes(j, g, x) && AfterBranch(j, g, x))
    case Fresh(k) => k < |j.rows| && Guard(g, j.p, j.rows[k]) && x.f in Created(j, j.rows[k])
  }

  /** The fact after ON MATCH SET on the entities some row matches. */
  ghost predicate AfterBranch(j: Job, g: Graph, x: Triple) {
    if Touched(j, g, |j.rows|, x.s) then AfterSet(j, x in g, x.f) else x in g
  }

  /** What the pair of branches leaves. */
  lemma PairHas(j: Job, g: Graph, x: Triple)
    requires Sound(j, g)
    ensures x in Pair(j, g) <==> PairExpected(j, g, x)
  {
    var ss := MatchedBy(g, j.p, j.rows);
    assert x.s in ss <==> Touched(j, g, |j.rows|, x.s);
    SetHas(g, ss, j.onMatch, x);
    assert x in MadeEdges(g, j.p, j.rows) <==> EdgePaired(j, g, x);
    EntityPaired(j, g, x);
  }

  /** The SET removes this fact of a matched entity, or the engine does with its last property. */
  predicate GoesWith(g: Graph, items: seq<Item>, x: Triple) {
    (x.f.Prop? && x.f.key in Keys(items)) || (x.f.Reifies? && Emptying(g, items, x.s))
  }

  /** What the staged SET retracts and asserts. */
  lemma SetHas(g: Graph, ss: set<Entity>, items: seq<Item>, x: Triple)
    ensures x in Cascade(g, SetDelta(g, ss, items)).asserts <==> x.s in ss && x.f in Asserts(items)
    ensures x in Cascade(g, SetDelta(g, ss, items)).retracts <==> x in g && x.s in ss && GoesWith(g, items, x)
  {
    var d := SetDelta(g, ss, items);
    if x.s in ss && x.f in Asserts(items) { assert Triple(x.s, x.f) == x; }
    EmptiedIff(g, ss, items, x.s);
  }

  lemma EntityPaired(j: Job, g: Graph, x: Triple)
    ensures x in MadeEntities(g, j.p, j.rows, j.onCreate) <==>
      x.s.Fresh? && x.s.row < |j.rows| && Guard(g, j.p, j.rows[x.s.row]) && x.f in Created(j, j.rows[x.s.row])
  {
    if x.s.Fresh? && x.s.row < |j.rows| && Guard(g, j.p, j.rows[x.s.row]) && x.f in Created(j, j.rows[x.s.row]) {
      assert Triple(Fresh(x.s.row), x.f) == x;
    }
  }

  /** No two rows the graph lacks are the same. */
  ghost predicate NoAbsentTwins(j: Job, g: Graph) {
    forall i, k | 0 <= i < k < |j.rows| && j.rows[i] == j.rows[k] :: !Absent(g, j.p, j.rows[i])
  }

  ghost predicate NoneStuck(j: Job, g: Graph) {
    forall i | 0 <= i < |j.rows| :: !Stuck(g, j.p, j.rows[i])
  }

  /** No matched reifier loses its last property. */
  ghost predicate NoneEmptied(j: Job, g: Graph) {
    forall i, s | 0 <= i < |j.rows| && s in Matched(g, j.p, j.rows[i]) :: !Emptying(g, j.onMatch, s)
  }

  lemma NeedNames(p: Pattern, row: Row)
    ensures (forall f | f in Need(p, row) :: f.Reifies?) <==> p.labels == {} && row.values.Keys == {}
  {
    assert forall l | l in p.labels :: Label(l) in Need(p, row);
    assert forall k | k in row.values :: Prop(k, row.values[k]) in Need(p, row);
  }

  /** It can only happen to a relationship pattern without labels and properties. */
  lemma EmptyingIsBare(j: Job, g: Graph, i: nat, s: Entity)
    requires Sound(j, g) && i < |j.rows| && s in Matched(g, j.p, j.rows[i]) && Emptying(g, j.onMatch, s)
    ensures j.p.isLink && j.p.labels == {} && j.p.keys == {}
  {
    var row := j.rows[i];
    assert Shaped(j.p, row);
    NeedNames(j.p, row);
    forall f | f in Need(j.p, row) ensures f.Reifies? {
      assert Triple(s, f) in g;
      assert f.Reifies? || f in Metadata(g, s);
    }
  }

  lemma EmptiedDiffers(j: Job, g: Graph, h: Graph, i: nat, s: Entity)
    requires Sound(j, g) && AsExpected(j, g, |j.rows|, h)
    requires i < |j.rows| && s in Matched(g, j.p, j.rows[i]) && Emptying(g, j.onMatch, s)
    ensures Pair(j, g) != h
  {
    EmptyingIsBare(j, g, i, s);
    assert Shaped(j.p, j.rows[i]);
    var f := Reifies(j.rows[i].link.value);
    var x := Triple(s, f);
    assert f in Need(j.p, j.rows[i]) && x in g;
    PairHas(j, g, x);
    assert AgreeOn(j, g, |j.rows|, h, x);
  }

  /** A first absent row makes an entity when run row by row. */
  lemma MadeIsThere(j: Job, g: Graph, h: Graph, k: nat, f: Feature)
    requires Sound(j, g) && k < |j.rows| && AsExpected(j, g, |j.rows|, h) && Made(j, g, |j.rows|, k)
    requires f in Need(j.p, j.rows[k]) && !f.Label?
    ensures Triple(Fresh(k), f) in h
  {
    assert AgreeOn(j, g, |j.rows|, h, Triple(Fresh(k), f));
    NeedKept(j, g, j.rows[k], f, true);
  }

  lemma StuckDiffers(j: Job, g: Graph, h: Graph, i: nat)
    requires Sound(j, g) && AsExpected(j, g, |j.rows|, h) && i < |j.rows| && Stuck(g, j.p, j.rows[i])
    ensures Pair(j, g) != h
  {
    var k := FirstOfKind(j, i);
    var f := Reifies(j.rows[k].link.value);
    assert f in Need(j.p, j.rows[k]);
    MadeIsThere(j, g, h, k, f);
    PairHas(j, g, Triple(Fresh(k), f));
  }

  lemma TwinsDiffer(j: Job, g: Graph, h: Graph, i: nat, k: nat)
    requires Sound(j, g) && AsExpected(j, g, |j.rows|, h) && NoneStuck(j, g)
    requires i < k < |j.rows| && j.rows[i] == j.rows[k] && Absent(g, j.p, j.rows[i])
    ensures Pair(j, g) != h
  {
    NeedSomething(j, g, j.rows[k]);
    var f :| f in Need(j.p, j.rows[k]);
    var x := Triple(Fresh(k), f);
    PairHas(j, g, x);
    OneBranchIff(g, j.p, j.rows[k]);
    assert !First(j, k);
    assert AgreeOn(j, g, |j.rows|, h, x);
  }

  lemma EdgePairedIff(j: Job, g: Graph, x: Triple)
    requires NoneStuck(j, g)
    ensures EdgePaired(j, g, x) <==> EdgeMade(j, g, |j.rows|, x)
  {
    if EdgePaired(j, g, x) {
      var i :| 0 <= i < |j.rows| && Guard(g, j.p, j.rows[i]) && x in EdgesOf(j.rows[i]);
      OneBranchIff(g, j.p, j.rows[i]);
      var k := FirstOfKind(j, i);
      assert Made(j, g, |j.rows|, k);
    }
    if EdgeMade(j, g, |j.rows|, x) {
      var k :| 0 <= k < |j.rows| && Made(j, g, |j.rows|, k) && x in EdgesOf(j.rows[k]);
      OneBranchIff(g, j.p, j.rows[k]);
    }
  }

  lemma PairSame(j: Job, g: Graph, h: Graph, x: Triple)
    requires Sound(j, g) && AsExpected(j, g, |j.rows|, h)
    requires NoneStuck(j, g) && NoAbsentTwins(j, g) && NoneEmptied(j, g)
    ensures x in Pair(j, g) <==> x in h
  {
    PairHas(j, g, x);
    EdgePairedIff(j, g, x);
    assert AgreeOn(j, g, |j.rows|, h, x);
    if x.s.Fresh? && x.s.row < |j.rows| {
      OneBranchIff(g, j.p, j.rows[x.s.row]);
      if Absent(g, j.p, j.rows[x.s.row]) { AbsentIsAlone(j, g, x.s.row); }
    }
  }

  /**
   * The pair of branches is row-by-row find-or-create exactly when no two rows that the graph lacks
   * are the same, for equal absent rows are created twice, no row is stuck on a plain edge, and no
   * matched reifier loses its last property, for then it loses its edge too.
   */
  lemma PairIsRowByRowIff(j: Job, g: Graph, hs: seq<Graph>)
    requires Sound(j, g) && RowByRow(j, g, hs)
    ensures Pair(j, g) == hs[|j.rows|] <==> NoAbsentTwins(j, g) && NoneStuck(j, g) && NoneEmptied(j, g)
  {
    var h := hs[|j.rows|];
    RowsExpected(j, g, hs, |j.rows|);
    if !NoneStuck(j, g) {
      var i :| 0 <= i < |j.rows| && Stuck(g, j.p, j.rows[i]);
      StuckDiffers(j, g, h, i);
    } else if !NoAbsentTwins(j, g) {
      var i, k :| 0 <= i < k < |j.rows| && j.rows[i] == j.rows[k] && Absent(g, j.p, j.rows[i]);
      TwinsDiffer(j, g, h, i, k);
    } else if !NoneEmptied(j, g) {
      var i, s :| 0 <= i < |j.rows| && s in Matched(g, j.p, j.rows[i]) && Emptying(g, j.onMatch, s);
      EmptiedDiffers(j, g, h, i, s);
    } else {
      forall x ensures x in Pair(j, g) <==> x in h { PairSame(j, g, h, x); }
    }
  }

  lemma AbsentIsAlone(j: Job, g: Graph, k: nat)
    requires NoAbsentTwins(j, g) && k < |j.rows| && Absent(g, j.p, j.rows[k])
    ensures First(j, k) && !Again(j, k, |j.rows|)
  {
  }

  /**
   * The branch each row takes row by row is the one whose guard holds of the graph before the
   * statement, unless the row is stuck and neither does.
   */
  lemma BranchByOriginalGraph(j: Job, g: Graph, hs: seq<Graph>, n: nat)
    requires Sound(j, g) && RowByRow(j, g, hs) && NoAbsentTwins(j, g) && n < |j.rows|
    ensures Matched(hs[n], j.p, j.rows[n]) != {} <==> Matched(g, j.p, j.rows[n]) != {}
    ensures Guard(g, j.p, j.rows[n]) <==> Matched(hs[n], j.p, j.rows[n]) == {} && !Stuck(g, j.p, j.rows[n])
  {
    RowsExpected(j, g, hs, n);
    CreatesIff(j, g, n, hs[n]);
    OneBranchIff(g, j.p, j.rows[n]);
    if Absent(g, j.p, j.rows[n]) { AbsentIsAlone(j, g, n); }
  }

  /** Staging keeps what it relies on: afterwards too every reifier comes with its edge. */
  lemma PairKeepsEdges(j: Job, g: Graph)
    requires Sound(j, g)
    ensures EdgesKept(Pair(j, g))
  {
    forall x | x in Pair(j, g) && x.f.Reifies? ensures EdgeOf(x.f.link) in Pair(j, g) {
      if x.s.Stored? { StoredReifies(j, g, x); } else { MadeReifies(j, g, x); }
    }
  }

  lemma StoredReifies(j: Job, g: Graph, x: Triple)
    requires Sound(j, g) && x in Pair(j, g) && x.f.Reifies? && x.s.Stored?
    ensures EdgeOf(x.f.link) in Pair(j, g)
  {
    PairHas(j, g, x);
    if x.f in Asserts(j.onMatch) { AssertKeys(j.onMatch, x.f); }
    StoredEdgeStays(j, g, EdgeOf(x.f.link));
  }

  lemma MadeReifies(j: Job, g: Graph, x: Triple)
    requires Sound(j, g) && x in Pair(j, g) && x.f.Reifies? && x.s.Fresh?
    ensures EdgeOf(x.f.link) in Pair(j, g)
  {
    PairHas(j, g, x);
    var k := x.s.row;
    CreatedReifies(j, j.rows[k], x.f);
    MadeEdgeIsThere(j, g, k, EdgeOf(x.f.link));
  }

  lemma StoredEdgeStays(j: Job, g: Graph, x: Triple)
    requires Sound(j, g) && x in g && x.f.HasEdge?
    ensures x in Pair(j, g)
  {
    PairHas(j, g, x);
  }

  lemma CreatedReifies(j: Job, row: Row, f: Feature)
    requires f in Created(j, row) && f.Reifies?
    ensures row.link == Some(f.link)
  {
    if f in Asserts(j.onCreate) { AssertKeys(j.onCreate, f); }
  }

  lemma MadeEdgeIsThere(j: Job, g: Graph, k: nat, x: Triple)
    requires k < |j.rows| && Guard(g, j.p, j.rows[k]) && x in EdgesOf(j.rows[k])
    ensures x in Pair(j, g)
  {
    assert x in MadeEdges(g, j.p, j.rows);
  }

  /** Over a stuck row the statement changes nothing: no SET lands and nothing is created. */
  lemma StuckRowDoesNothing(j: Job, g: Graph, row: Row)
    requires Sound(j, g) && j.rows == [row] && Stuck(g, j.p, row)
    ensures Pair(j, g) == g
  {
    forall x ensures x in Pair(j, g) <==> x in g {
      PairHas(j, g, x);
      assert j.rows[0] == row;
    }
  }
}
