/**
 * Find-or-create row by row: what every entity looks like after any number of rows, and what a row
 * finds.
 */
module MergeMeaning {
  import opened Ledger
  import opened CypherMerge

  /** A row-by-row statement: its pattern, what it sets on a match and on a create, and its rows. */
  datatype Job = Job(p: Pattern, onMatch: seq<Item>, onCreate: seq<Item>, rows: seq<Row>)

  ghost predicate Shaped(p: Pattern, row: Row) {
    row.values.Keys == p.keys && (row.link.Some? <==> p.isLink)
  }

  /** A reifier comes with the edge it stands for. */
  ghost predicate EdgesKept(g: Graph) {
    forall x | x in g && x.f.Reifies? :: EdgeOf(x.f.link) in g
  }

  /**
   * The pattern identifies something, rows fill it, SET leaves its properties alone, and reifiers
   * come with their edges.
   */
  ghost predicate Sound(j: Job, g: Graph) {
    && (j.p.labels != {} || j.p.keys != {} || j.p.isLink) && (j.p.keys != {} ==> j.p.inline)
    && (forall i | 0 <= i < |j.rows| :: Shaped(j.p, j.rows[i]))
    && Keys(j.onMatch) !! j.p.keys && Keys(j.onCreate) !! j.p.keys && CreateRefused(j.p, j.onCreate).None?
    && (forall x | x in g :: x.s.Stored?) && EdgesKept(g)
  }

  function Created(j: Job, row: Row): set<Feature> {
    Need(j.p, row) + Asserts(j.onCreate)
  }

  /** One row of Cypher's own reading: look in the graph as it is now; set or create. */
  function RowStep(j: Job, g: Graph, i: nat): Graph
    requires i < |j.rows|
  {
    var ss := Matched(g, j.p, j.rows[i]);
    if ss == {} then g + (set f | f in Created(j, j.rows[i]) :: Triple(Fresh(i), f)) + EdgesOf(j.rows[i])
    else Install(g, SetDelta(g, ss, j.onMatch))
  }

  ghost predicate StepAt(j: Job, hs: seq<Graph>, i: nat)
    requires i + 1 < |hs| && i < |j.rows|
  {
    hs[i + 1] == RowStep(j, hs[i], i)
  }

  /** The graphs before the first row, after it, and so on. */
  ghost predicate RowByRow(j: Job, g: Graph, hs: seq<Graph>) {
    |hs| == |j.rows| + 1 && hs[0] == g && forall i | 0 <= i < |j.rows| :: StepAt(j, hs, i)
  }

  // ---------------------------------------------------------------------------
  // What each entity looks like after n rows
  // ---------------------------------------------------------------------------

  predicate Replaced(j: Job, f: Feature) {
    f.Prop? && f.key in Keys(j.onMatch)
  }

  /** A fact after ON MATCH SET, given whether it held before. */
  predicate AfterSet(j: Job, held: bool, f: Feature) {
    (held && !Replaced(j, f)) || f in Asserts(j.onMatch)
  }

  /** Some row before `n` matches `s` in the original graph. */
  ghost predicate Touched(j: Job, g: Graph, n: nat, s: Entity)
    requires n <= |j.rows|
  {
    exists i :: 0 <= i < n && s in Matched(g, j.p, j.rows[i])
  }

  /** Row `k` is the first of its kind. */
  ghost predicate First(j: Job, k: nat)
    requires k < |j.rows|
  {
    forall i | 0 <= i < k :: j.rows[i] != j.rows[k]
  }

  /** A later row before `n` is the same as row `k`. */
  ghost predicate Again(j: Job, k: nat, n: nat)
    requires k < |j.rows| && n <= |j.rows|
  {
    exists i :: k < i < n && j.rows[i] == j.rows[k]
  }

  ghost predicate Made(j: Job, g: Graph, n: nat, k: nat)
    requires n <= |j.rows|
  {
    k < n && Absent(g, j.p, j.rows[k]) && First(j, k)
  }

  /** The edge of an entity made before `n`. */
  ghost predicate EdgeMade(j: Job, g: Graph, n: nat, x: Triple)
    requires n <= |j.rows|
  {
    exists k :: 0 <= k < n && Made(j, g, n, k) && x in EdgesOf(j.rows[k])
  }

  ghost predicate FreshExpected(j: Job, g: Graph, n: nat, k: nat, f: Feature)
    requires n <= |j.rows|
  {
    && Made(j, g, n, k)
    && var made := f in Created(j, j.rows[k]); if Again(j, k, n) then AfterSet(j, made, f) else made
  }

  ghost predicate Expected(j: Job, g: Graph, n: nat, x: Triple)
    requires n <= |j.rows|
  {
    match x.s
    case Stored(_) =>
      (if Touched(j, g, n, x.s) then AfterSet(j, x in g, x.f) else x in g) || EdgeMade(j, g, n, x)
    case Fresh(k) => FreshExpected(j, g, n, k, x.f)
  }

  ghost predicate AgreeOn(j: Job, g: Graph, n: nat, h: Graph, x: Triple)
    requires n <= |j.rows|
  {
    x in h <==> Expected(j, g, n, x)
  }

  /** The graph after `n` rows is as expected. */
  ghost predicate AsExpected(j: Job, g: Graph, n: nat, h: Graph)
    requires n <= |j.rows|
  {
    forall x :: AgreeOn(j, g, n, h, x)
  }

  // ---------------------------------------------------------------------------
  // What a row finds
  // ---------------------------------------------------------------------------

  lemma AssertKeys(items: seq<Item>, f: Feature)
    requires f in Asserts(items)
    ensures f.Prop? ==> f.key in Keys(items)
    ensures f.Prop? || f.Label?
  {
    var i :| 0 <= i < |items| && f in ItemFeatures(items[i]);
    assert AssertedBy(items[i], f);
  }

  /** Setting properties the pattern does not name keeps every fact the pattern needs. */
  lemma NeedKept(j: Job, g: Graph, row: Row, f: Feature, held: bool)
    requires Sound(j, g) && Shaped(j.p, row) && f in Need(j.p, row)
    ensures !f.Label? ==> (AfterSet(j, held, f) <==> held)
    ensures f.Label? && held ==> AfterSet(j, held, f)
  {
    if f in Asserts(j.onMatch) { AssertKeys(j.onMatch, f); }
  }

  /** An entity matched once has the pattern's labels, so later rows judge it as the original graph. */
  lemma StoredNeeds(j: Job, g: Graph, n: nat, h: Graph, s: Entity, f: Feature)
    requires Sound(j, g) && n < |j.rows| && AsExpected(j, g, n, h) && s.Stored? && f in Need(j.p, j.rows[n])
    ensures Triple(s, f) in h <==> Triple(s, f) in g
  {
    var x := Triple(s, f);
    assert AgreeOn(j, g, n, h, x);
    assert !EdgeMade(j, g, n, x);
    if Touched(j, g, n, s) {
      NeedKept(j, g, j.rows[n], f, x in g);
      var i :| 0 <= i < n && s in Matched(g, j.p, j.rows[i]);
      if f.Label? { assert f in Need(j.p, j.rows[i]); }
    }
  }

  /** Edges are only ever added. */
  lemma EdgesGrow(j: Job, g: Graph, n: nat, h: Graph, row: Row)
    requires n <= |j.rows| && AsExpected(j, g, n, h) && EdgesOf(row) <= g
    ensures EdgesOf(row) <= h
  {
    forall x | x in EdgesOf(row) ensures x in h {
      assert AgreeOn(j, g, n, h, x);
    }
  }

  lemma StoredMatch(j: Job, g: Graph, n: nat, h: Graph, s: Entity)
    requires Sound(j, g) && n < |j.rows| && AsExpected(j, g, n, h) && s.Stored?
    ensures Matches(h, j.p, j.rows[n], s) <==> Matches(g, j.p, j.rows[n], s)
  {
    var row := j.rows[n];
    forall f | f in Need(j.p, row) ensures Triple(s, f) in h <==> Triple(s, f) in g {
      StoredNeeds(j, g, n, h, s, f);
    }
    if Matches(h, j.p, row, s) && row.link.Some? {
      assert Triple(s, Reifies(row.link.value)) in g;
    }
    if Matches(g, j.p, row, s) { EdgesGrow(j, g, n, h, row); }
  }

  /** A created entity has exactly its own row's identity. */
  lemma CreatedNeeds(j: Job, g: Graph, row: Row, other: Row)
    requires Sound(j, g) && Shaped(j.p, row) && Shaped(j.p, other)
    ensures Need(j.p, row) <= Created(j, other) <==> row == other
  {
    if Need(j.p, row) <= Created(j, other) {
      forall k | k in row.values ensures row.values[k] == other.values[k] {
        var f := Prop(k, row.values[k]);
        assert f in Need(j.p, row);
        if f in Asserts(j.onCreate) { AssertKeys(j.onCreate, f); }
      }
      if row.link.Some? {
        var f := Reifies(row.link.value);
        assert f in Need(j.p, row);
        if f in Asserts(j.onCreate) { AssertKeys(j.onCreate, f); }
      }
      assert row.values == other.values;
    }
  }

  lemma FreshMatch(j: Job, g: Graph, n: nat, h: Graph, k: nat)
    requires Sound(j, g) && n < |j.rows| && AsExpected(j, g, n, h)
    ensures Matches(h, j.p, j.rows[n], Fresh(k)) <==> Made(j, g, n, k) && j.rows[k] == j.rows[n]
  {
    var row, s := j.rows[n], Fresh(k);
    NeedSomething(j, g, row);
    if Made(j, g, n, k) {
      forall f | f in Need(j.p, row) ensures Triple(s, f) in h <==> f in Created(j, j.rows[k]) {
        assert AgreeOn(j, g, n, h, Triple(s, f));
        if Again(j, k, n) {
          NeedKept(j, g, row, f, f in Created(j, j.rows[k]));
          if f.Label? { assert f in Need(j.p, j.rows[k]); }
        }
      }
      CreatedNeeds(j, g, row, j.rows[k]);
      if j.rows[k] == row { MadeHasEdge(j, g, n, h, k); }
    } else {
      var f :| f in Need(j.p, row);
      assert AgreeOn(j, g, n, h, Triple(s, f));
    }
  }

  lemma MadeHasEdge(j: Job, g: Graph, n: nat, h: Graph, k: nat)
    requires n <= |j.rows| && AsExpected(j, g, n, h) && Made(j, g, n, k)
    ensures EdgesOf(j.rows[k]) <= h
  {
    forall x | x in EdgesOf(j.rows[k]) ensures x in h {
      assert AgreeOn(j, g, n, h, x);
      assert EdgeMade(j, g, n, x);
    }
  }

  lemma NeedSomething(j: Job, g: Graph, row: Row)
    requires Sound(j, g) && Shaped(j.p, row)
    ensures exists f :: f in Need(j.p, row)
  {
    if j.p.labels != {} {
      var l :| l in j.p.labels;
      assert Label(l) in Need(j.p, row);
    } else if j.p.keys != {} {
      var k :| k in row.values.Keys;
      assert Prop(k, row.values[k]) in Need(j.p, row);
    } else {
      assert Reifies(row.link.value) in Need(j.p, row);
    }
  }

  /** What row `n` finds: the original matches, or the entity an equal earlier row made. */
  lemma RowFinds(j: Job, g: Graph, n: nat, h: Graph, s: Entity)
    requires Sound(j, g) && n < |j.rows| && AsExpected(j, g, n, h)
    ensures s in Matched(h, j.p, j.rows[n]) <==>
      match s
      case Stored(_) => s in Matched(g, j.p, j.rows[n])
      case Fresh(k) => Made(j, g, n, k) && j.rows[k] == j.rows[n]
  {
    NeedSomething(j, g, j.rows[n]);
    var f :| f in Need(j.p, j.rows[n]);
    if Matches(h, j.p, j.rows[n], s) { assert Triple(s, f) in h; }
    if Matches(g, j.p, j.rows[n], s) { assert Triple(s, f) in g; }
    match s {
      case Stored(_) => StoredMatch(j, g, n, h, s);
      case Fresh(k) => FreshMatch(j, g, n, h, k);
    }
  }

  /** Among equal rows there is a first one. */
  lemma {:induction false} FirstOfKind(j: Job, i: nat) returns (k: nat)
    requires i < |j.rows|
    ensures k <= i && j.rows[k] == j.rows[i] && First(j, k)
    decreases i
  {
    if First(j, i) {
      k := i;
    } else {
      var i' :| 0 <= i' < i && j.rows[i'] == j.rows[i];
      k := FirstOfKind(j, i');
    }
  }

  /** A row creates exactly when the original graph lacks it and no earlier row was the same. */
  lemma CreatesIff(j: Job, g: Graph, n: nat, h: Graph)
    requires Sound(j, g) && n < |j.rows| && AsExpected(j, g, n, h)
    ensures Matched(h, j.p, j.rows[n]) == {} <==> Absent(g, j.p, j.rows[n]) && First(j, n)
  {
    var row := j.rows[n];
    if Matched(h, j.p, row) == {} {
      forall s ensures s !in Matched(g, j.p, row) {
        RowFinds(j, g, n, h, s);
      }
      if !First(j, n) {
        var i :| 0 <= i < n && j.rows[i] == row;
        var k := FirstOfKind(j, i);
        RowFinds(j, g, n, h, Fresh(k));
        assert false;
      }
    }
    if Absent(g, j.p, row) && First(j, n) {
      forall s ensures s !in Matched(h, j.p, row) { RowFinds(j, g, n, h, s); }
    }
  }

  lemma TouchedNext(j: Job, g: Graph, n: nat, s: Entity)
    requires n < |j.rows|
    ensures Touched(j, g, n + 1, s) <==> Touched(j, g, n, s) || s in Matched(g, j.p, j.rows[n])
  {
  }

  lemma AgainNext(j: Job, k: nat, n: nat)
    requires k < n < |j.rows|
    ensures Again(j, k, n + 1) <==> Again(j, k, n) || j.rows[n] == j.rows[k]
  {
  }

  lemma CreateStep(j: Job, g: Graph, n: nat, h: Graph, x: Triple)
    requires Sound(j, g) && n < |j.rows| && AsExpected(j, g, n, h) && Matched(h, j.p, j.rows[n]) == {}
    ensures x in RowStep(j, h, n) <==> Expected(j, g, n + 1, x)
  {
    CreatesIff(j, g, n, h);
    assert AgreeOn(j, g, n, h, x);
    match x.s {
      case Stored(_) => TouchedNext(j, g, n, x.s);
      case Fresh(k) => if k < n { AgainNext(j, k, n); }
    }
  }

  lemma SetStepStored(j: Job, g: Graph, n: nat, h: Graph, x: Triple)
    requires Sound(j, g) && n < |j.rows| && AsExpected(j, g, n, h) && Matched(h, j.p, j.rows[n]) != {} && x.s.Stored?
    ensures x in RowStep(j, h, n) <==> Expected(j, g, n + 1, x)
  {
    RowFinds(j, g, n, h, x.s);
    InstallSet(h, Matched(h, j.p, j.rows[n]), j.onMatch, x);
    assert AgreeOn(j, g, n, h, x);
    TouchedNext(j, g, n, x.s);
  }

  lemma SetStepFresh(j: Job, g: Graph, n: nat, h: Graph, x: Triple)
    requires Sound(j, g) && n < |j.rows| && AsExpected(j, g, n, h) && Matched(h, j.p, j.rows[n]) != {} && x.s.Fresh?
    ensures x in RowStep(j, h, n) <==> Expected(j, g, n + 1, x)
  {
    var k, ss := x.s.row, Matched(h, j.p, j.rows[n]);
    CreatesIff(j, g, n, h);
    RowFinds(j, g, n, h, x.s);
    InstallSet(h, ss, j.onMatch, x);
    assert AgreeOn(j, g, n, h, x);
    FreshNext(j, g, n, k, x.f);
  }

  /** A row that creates nothing sets the entity an equal earlier row made. */
  lemma FreshNext(j: Job, g: Graph, n: nat, k: nat, f: Feature)
    requires n < |j.rows| && !(Absent(g, j.p, j.rows[n]) && First(j, n))
    ensures FreshExpected(j, g, n + 1, k, f) <==>
      if Made(j, g, n, k) && j.rows[k] == j.rows[n] then AfterSet(j, FreshExpected(j, g, n, k, f), f)
      else FreshExpected(j, g, n, k, f)
  {
    assert Made(j, g, n + 1, k) <==> Made(j, g, n, k);
    if Made(j, g, n, k) { AgainNext(j, k, n); }
  }

  lemma InstallSet(h: Graph, ss: set<Entity>, items: seq<Item>, x: Triple)
    ensures x in Install(h, SetDelta(h, ss, items)) <==>
      if x.s in ss then (x in h && !(x.f.Prop? && x.f.key in Keys(items))) || x.f in Asserts(items) else x in h
  {
    var d := SetDelta(h, ss, items);
    assert x in d.asserts <==> x.s in ss && x.f in Asserts(items) by {
      if x.s in ss && x.f in Asserts(items) { assert Triple(x.s, x.f) == x; }
    }
  }

  lemma StepExpected(j: Job, g: Graph, n: nat, h: Graph, n': nat, h': Graph)
    requires Sound(j, g) && n < |j.rows| && AsExpected(j, g, n, h) && n' == n + 1 && h' == RowStep(j, h, n)
    ensures AsExpected(j, g, n', h')
  {
    forall x ensures AgreeOn(j, g, n', h', x) {
      if Matched(h, j.p, j.rows[n]) == {} {
        CreateStep(j, g, n, h, x);
      } else if x.s.Stored? {
        SetStepStored(j, g, n, h, x);
      } else {
        SetStepFresh(j, g, n, h, x);
      }
    }
  }

  /** Row by row, every entity ends as expected. */
  lemma NothingDone(j: Job, g: Graph)
    requires forall x | x in g :: x.s.Stored?
    ensures AsExpected(j, g, 0, g)
  {
    forall x ensures AgreeOn(j, g, 0, g, x) {}
  }

  lemma {:induction false} RowsExpected(j: Job, g: Graph, hs: seq<Graph>, n: nat)
    requires Sound(j, g) && RowByRow(j, g, hs) && n <= |j.rows|
    ensures AsExpected(j, g, n, hs[n])
    decreases n
  {
    if n == 0 {
      NothingDone(j, g);
    } else {
      RowsExpected(j, g, hs, n - 1);
      assert StepAt(j, hs, n - 1);
      StepExpected(j, g, n - 1, hs[n - 1], n, hs[n]);
    }
  }
}
