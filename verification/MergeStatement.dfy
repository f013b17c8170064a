/**
 * Conditional MERGE as statements: per-row, standalone, and SET clauses read in order.
 */
module MergeStatement {
  import opened Ledger
  import opened CypherMerge
  import opened MergeMeaning
  import opened MergePair

  /** The row-by-row reading of MERGE … ON CREATE … ON MATCH … SET … over some rows. */
  function JobOf(m: MergeClause, trailing: seq<Item>, rows: seq<Row>): Job {
    Job(m.pattern, m.onMatch + trailing, m.onCreate + trailing, rows)
  }

  /**
   * The pair of branches staged for a per-row MERGE is find-or-create row by row, exactly when no
   * two rows that the graph lacks are the same, none is stuck on a plain edge and no matched reifier
   * loses its last property.
   */
  lemma PerRowMerge(u: Update, g: Graph, rows: seq<Row>, hs: seq<Graph>)
    requires Detect(u) == Some(MergePerRowSet(u))
    requires Sound(JobOf(u.writes[0].clause, SetItems(u.writes[1..]), rows), g)
    requires RowByRow(JobOf(u.writes[0].clause, SetItems(u.writes[1..]), rows), g, hs)
    ensures var j := JobOf(u.writes[0].clause, SetItems(u.writes[1..]), rows);
      && StagePair(u, g, rows) == Ok(Pair(j, g))
      && (StagePair(u, g, rows) == Ok(hs[|rows|]) <==> NoAbsentTwins(j, g) && NoneStuck(j, g) && NoneEmptied(j, g))
  {
    PairLowers(u, g, rows);
    PairIsRowByRowIff(JobOf(u.writes[0].clause, SetItems(u.writes[1..]), rows), g, hs);
  }

  /** MERGE (a)-[r:kind]->(b) SET r.key = value after a MATCH of both ends. */
  function SetOnLink(key: Name, values: set<Value>): Update {
    var clause := MergeClause(Pattern({}, {}, true, false, true), [], []);
    Update([OtherRead], [Merge(clause), Set([SetProp(key, values)])])
  }

  /** The pair such a statement stages. */
  lemma SetOnLinkStages(g: Graph, link: Link, key: Name, values: set<Value>)
    ensures var u, row := SetOnLink(key, values), Row(map[], Some(link));
      var j := Job(Pattern({}, {}, true, false, true), [SetProp(key, values)], [SetProp(key, values)], [row]);
      && Detect(u) == Some(MergePerRowSet(u)) && StagePair(u, g, [row]) == Ok(Pair(j, g))
      && ((forall x | x in g :: x.s.Stored?) && EdgesKept(g) ==> Sound(j, g))
  {
    var u, row, items := SetOnLink(key, values), Row(map[], Some(link)), [SetProp(key, values)];
    assert u.writes[1..] == [Set(items)] && [Set(items)][1..] == [];
    assert SetItems(u.writes[1..]) == items + SetItems([]) == items;
    assert [] + items == items;
    PairLowers(u, g, [row]);
  }

  /** Over an edge stored without a reifier, the SET is lost and nothing is created. */
  lemma PlainEdgeIsIgnored(link: Link, key: Name, value: Value)
    ensures var u, g := SetOnLink(key, {value}), {EdgeOf(link)};
      Detect(u) == Some(MergePerRowSet(u)) && StagePair(u, g, [Row(map[], Some(link))]) == Ok(g)
  {
    var g, row, items := {EdgeOf(link)}, Row(map[], Some(link)), [SetProp(key, {value})];
    var j := Job(Pattern({}, {}, true, false, true), items, items, [row]);
    SetOnLinkStages(g, link, key, {value});
    forall s ensures s !in Matched(g, j.p, row) {
      assert Reifies(link) in Need(j.p, row);
    }
    StuckRowDoesNothing(j, g, row);
  }

  /** A relationship with one property: its edge, and a reifier that carries the property. */
  function OneProperty(link: Link, e: nat, key: Name, value: Value): Graph {
    {EdgeOf(link), Triple(Stored(e), Reifies(link)), Triple(Stored(e), Prop(key, value))}
  }

  /**
   * Removing the only property of a relationship removes its reifier too. What is left is a plain
   * edge, on which every later such statement is stuck.
   */
  lemma LastPropertyTakesTheReifier(link: Link, e: nat, key: Name, value: Value)
    requires e != link.from
    ensures var u, g, row := SetOnLink(key, {}), OneProperty(link, e, key, value), Row(map[], Some(link));
      && Detect(u) == Some(MergePerRowSet(u)) && StagePair(u, g, [row]) == Ok({EdgeOf(link)})
      && Stuck({EdgeOf(link)}, u.writes[0].clause.pattern, row)
  {
    var g, row, items := OneProperty(link, e, key, value), Row(map[], Some(link)), [SetProp(key, {})];
    var j := Job(Pattern({}, {}, true, false, true), items, items, [row]);
    SetOnLinkStages(g, link, key, {});
    forall x ensures x in Pair(j, g) <==> x == EdgeOf(link) {
      OnePropertyRemoved(link, e, key, value, j, x);
    }
    assert Pair(j, g) == {EdgeOf(link)};
    forall s ensures s !in Matched({EdgeOf(link)}, j.p, row) {
      assert Reifies(link) in Need(j.p, row);
    }
  }

  lemma OnePropertyRemoved(link: Link, e: nat, key: Name, value: Value, j: Job, x: Triple)
    requires e != link.from && j.p == Pattern({}, {}, true, false, true) && j.rows == [Row(map[], Some(link))]
    requires j.onMatch == j.onCreate == [SetProp(key, {})] && Sound(j, OneProperty(link, e, key, value))
    ensures x in Pair(j, OneProperty(link, e, key, value)) <==> x == EdgeOf(link)
  {
    var g := OneProperty(link, e, key, value);
    PairHas(j, g, x);
    NoAsserts(key);
    OnePropertyMatched(link, e, key, value, j.p, x.s);
    assert Touched(j, g, 1, x.s) <==> x.s == Stored(e) by { assert j.rows[0] == Row(map[], Some(link)); }
    assert j.onMatch[0].SetProp? && key in Keys(j.onMatch);
    OnePropertyEmptied(link, e, key, value);
  }

  lemma OnePropertyMatched(link: Link, e: nat, key: Name, value: Value, p: Pattern, s: Entity)
    requires e != link.from && p == Pattern({}, {}, true, false, true)
    ensures s in Matched(OneProperty(link, e, key, value), p, Row(map[], Some(link))) <==> s == Stored(e)
  {
    var g := OneProperty(link, e, key, value);
    assert Need(p, Row(map[], Some(link))) == {Reifies(link)};
    assert Triple(Stored(e), Reifies(link)) in g;
  }

  lemma OnePropertyEmptied(link: Link, e: nat, key: Name, value: Value)
    requires e != link.from
    ensures Emptying(OneProperty(link, e, key, value), [SetProp(key, {})], Stored(e))
  {
    var g, items := OneProperty(link, e, key, value), [SetProp(key, {})];
    NoAsserts(key);
    assert items[0].SetProp? && items[0].key == key;
    assert Prop(key, value) in Metadata(g, Stored(e));
    assert LinksOf(g, Stored(e)) == {link};
  }

  lemma NoAsserts(key: Name)
    ensures Asserts([SetProp(key, {})]) == {}
  {
    var items := [SetProp(key, {})];
    forall f ensures f !in Asserts(items) {
      assert !AssertedBy(items[0], f);
    }
  }

  /** A standalone node MERGE with SETs: probing and running one branch is find-or-create. */
  lemma StandaloneMerge(m: MergeClause, trailing: seq<Item>, g: Graph, row: Row, hs: seq<Graph>)
    requires Sound(JobOf(m, trailing, [row]), g) && m.pattern.simple && !m.pattern.isLink
    requires RowByRow(JobOf(m, trailing, [row]), g, hs)
    ensures ProbeThenBranch(m, trailing, g, row) == Ok(hs[1])
  {
    var j := JobOf(m, trailing, [row]);
    BranchIsPair(m, trailing, g, row);
    NodesKeepAFact(j, g);
    assert NoAbsentTwins(j, g) && NoneStuck(j, g);
    PairIsRowByRowIff(j, g, hs);
  }

  /** A statement that is a MERGE of a node and SETs, with no leading read. */
  ghost predicate StandaloneNode(u: Update) {
    && u.leading == [] && u.writes != [] && u.writes[0].Merge?
    && u.writes[0].clause.pattern.simple && !u.writes[0].clause.pattern.isLink
    && (forall i | 1 <= i < |u.writes| :: u.writes[i].Set? && u.writes[i].items != [])
  }

  /**
   * From the statement: whichever way it is run, by probing or lowered as it is when there is
   * nothing to set on a match, a standalone node MERGE is find-or-create with its SETs applied to
   * the node, found or created.
   */
  lemma StandaloneStatement(u: Update, g: Graph, row: Row, hs: seq<Graph>)
    requires StandaloneNode(u)
    requires Sound(JobOf(u.writes[0].clause, SetItems(u.writes[1..]), [row]), g)
    requires RowByRow(JobOf(u.writes[0].clause, SetItems(u.writes[1..]), [row]), g, hs)
    ensures Execute(u, g, [row]) == Ok(hs[1])
  {
    var m, trailing := u.writes[0].clause, SetItems(u.writes[1..]);
    DetectIff(u);
    if Detect(u).Some? {
      assert Conditional(u);
      StandaloneMerge(m, trailing, g, row, hs);
    } else {
      assert !Conditional(u);
      assert u.writes == [Merge(m)] && trailing == [] && m.onMatch == [];
      PlainMerge(m, g, row, hs);
    }
  }

  /** MERGE with at most ON CREATE SET, lowered as it is. */
  lemma PlainMerge(m: MergeClause, g: Graph, row: Row, hs: seq<Graph>)
    requires m.onMatch == [] && m.pattern.simple && !m.pattern.isLink
    requires Sound(JobOf(m, [], [row]), g) && RowByRow(JobOf(m, [], [row]), g, hs)
    ensures Stage(Update([], [Merge(m)]), g, [row]).Ok?
    ensures Install(g, Stage(Update([], [Merge(m)]), g, [row]).value) == hs[1]
  {
    var j := JobOf(m, [], [row]);
    assert m.onCreate + [] == m.onCreate && m.onMatch + [] == [];
    var d := CreateDelta(g, m.pattern, [row], m.onCreate);
    AssertsEmptyNothing(g, d);
    NodesKeepAFact(j, g);
    assert NoAbsentTwins(j, g) && NoneStuck(j, g);
    PairIsRowByRowIff(j, g, hs);
    NothingSet(g, MatchedBy(g, m.pattern, [row]));
  }

  /** A SET of no items changes nothing. */
  lemma NothingSet(g: Graph, ss: set<Entity>)
    ensures Cascade(g, SetDelta(g, ss, [])) == Delta({}, {})
  {
    var d := SetDelta(g, ss, []);
    assert d == Delta({}, {});
    AssertsEmptyNothing(g, d);
  }

  lemma BranchIsPair(m: MergeClause, trailing: seq<Item>, g: Graph, row: Row)
    requires Sound(JobOf(m, trailing, [row]), g) && m.pattern.simple && !m.pattern.isLink
    ensures ProbeThenBranch(m, trailing, g, row) == Ok(Pair(JobOf(m, trailing, [row]), g))
  {
    var j := JobOf(m, trailing, [row]);
    var result := ProbeThenBranch(m, trailing, g, row);
    SameInBranch(m, trailing, g, row, Triple(Fresh(0), Label("")));
    forall x ensures x in result.value <==> x in Pair(j, g) {
      SameInBranch(m, trailing, g, row, x);
    }
    assert result.value == Pair(j, g);
  }

  lemma SameInBranch(m: MergeClause, trailing: seq<Item>, g: Graph, row: Row, x: Triple)
    requires Sound(JobOf(m, trailing, [row]), g) && m.pattern.simple && !m.pattern.isLink
    ensures var r := ProbeThenBranch(m, trailing, g, row);
      r.Ok? && (x in r.value <==> x in Pair(JobOf(m, trailing, [row]), g))
  {
    PairHas(JobOf(m, trailing, [row]), g, x);
    NodesOnly(m, trailing, g, row, x);
    BranchHas(m, trailing, g, row, x);
  }

  /** For a node pattern the pair adds no edge and takes no reifier away. */
  lemma NodesOnly(m: MergeClause, trailing: seq<Item>, g: Graph, row: Row, x: Triple)
    requires Sound(JobOf(m, trailing, [row]), g) && !m.pattern.isLink
    ensures var j := JobOf(m, trailing, [row]);
      PairExpected(j, g, x) <==>
        match x.s
        case Stored(_) => AfterBranch(j, g, x)
        case Fresh(k) => k < 1 && Absent(g, j.p, row) && x.f in Created(j, row)
  {
    var j := JobOf(m, trailing, [row]);
    assert Shaped(j.p, j.rows[0]);
    if Vanishes(j, g, x) { EmptyingIsBare(j, g, 0, x.s); }
  }

  /** A matched node keeps the labels or properties it was matched by. */
  lemma NodesKeepAFact(j: Job, g: Graph)
    requires Sound(j, g) && !j.p.isLink
    ensures NoneEmptied(j, g)
  {
    forall i, s | 0 <= i < |j.rows| && s in Matched(g, j.p, j.rows[i]) ensures !Emptying(g, j.onMatch, s) {
      if Emptying(g, j.onMatch, s) { EmptyingIsBare(j, g, i, s); }
    }
  }

  lemma BranchHas(m: MergeClause, trailing: seq<Item>, g: Graph, row: Row, x: Triple)
    requires Sound(JobOf(m, trailing, [row]), g) && m.pattern.simple && !m.pattern.isLink
    ensures var j, r := JobOf(m, trailing, [row]), ProbeThenBranch(m, trailing, g, row);
      && r.Ok?
      && (x in r.value <==>
          match x.s
          case Stored(_) => AfterBranch(j, g, x)
          case Fresh(k) => k < 1 && Absent(g, j.p, row) && x.f in Created(j, row))
  {
    var j := JobOf(m, trailing, [row]);
    assert Shaped(j.p, j.rows[0]);
    assert Touched(j, g, 1, x.s) <==> x.s in Matched(g, j.p, row) by {
      if x.s in Matched(g, j.p, row) { assert j.rows[0] == row; }
    }
    if Absent(g, j.p, row) {
      var d := CreateDelta(g, j.p, [row], j.onCreate);
      AssertsEmptyNothing(g, d);
      assert [row][0] == row;
      if x.s == Fresh(0) && x.f in Created(j, row) { assert Triple(Fresh(0), x.f) == x && x in d.asserts; }
    } else {
      var ss := Matched(g, j.p, row);
      assert MatchedBy(g, j.p, [row]) == ss by { assert [row][0] == row; }
      SetHas(g, ss, j.onMatch, x);
      if x.s in ss && Emptying(g, j.onMatch, x.s) { EmptyingIsBare(j, g, 0, x.s); }
    }
  }

  lemma AssertsBoth(a: seq<Item>, b: seq<Item>)
    ensures Asserts(a + b) == Asserts(a) + Asserts(b)
  {
    var ab := a + b;
    forall f ensures f in Asserts(ab) <==> f in Asserts(a) + Asserts(b) {
      if i :| 0 <= i < |a| && f in ItemFeatures(a[i]) { assert ab[i] == a[i]; }
      if i :| 0 <= i < |b| && f in ItemFeatures(b[i]) { assert ab[|a| + i] == b[i]; }
    }
  }

  /** A trailing SET lands on a row's entity, found or created, exactly when the row is not stuck. */
  lemma TrailingOnBoth(m: MergeClause, trailing: seq<Item>, rows: seq<Row>, g: Graph, i: nat, s: Entity, f: Feature)
    requires Sound(JobOf(m, trailing, rows), g) && i < |rows| && f in Asserts(trailing)
    requires if Absent(g, m.pattern, rows[i]) then s == Fresh(i) else s in Matched(g, m.pattern, rows[i])
    ensures Triple(s, f) in Pair(JobOf(m, trailing, rows), g) <==> !Stuck(g, m.pattern, rows[i])
  {
    var j := JobOf(m, trailing, rows);
    AssertsBoth(m.onMatch, trailing);
    AssertsBoth(m.onCreate, trailing);
    PairHas(j, g, Triple(s, f));
    OneBranchIff(g, j.p, j.rows[i]);
    if !Absent(g, m.pattern, rows[i]) {
      assert s in Matched(g, j.p, j.rows[i]);
      var x :| x in g && x.s == s;
      assert Touched(j, g, |j.rows|, s);
    }
  }

  // ---------------------------------------------------------------------------
  // SET items one after the other
  // ---------------------------------------------------------------------------

  function ApplyItem(item: Item, fs: set<Feature>): set<Feature> {
    match item
    case SetProp(k, _) => (set f | f in fs && !(f.Prop? && f.key == k)) + ItemFeatures(item)
    case AddLabels(_) => fs + ItemFeatures(item)
  }

  /** Cypher's reading: each item sees what the one before it left. */
  /** Setting a property leaves just the values given, adding labels adds those, and nothing else changes. */
  lemma ApplyItemIff(item: Item, fs: set<Feature>, f: Feature)
    ensures f in ApplyItem(item, fs) <==>
      match item
      case SetProp(k, values) => if f.Prop? && f.key == k then f.value in values else f in fs
      case AddLabels(names) => f in fs || (f.Label? && f.name in names)
  {
  }

  function InOrder(items: seq<Item>, fs: set<Feature>): set<Feature> {
    if items == [] then fs else ApplyItem(items[|items| - 1], InOrder(items[..|items| - 1], fs))
  }

  /** The lowering: one clause, all old values out, all new values in. */
  function Together(items: seq<Item>, fs: set<Feature>): set<Feature> {
    (set f | f in fs && !(f.Prop? && f.key in Keys(items))) + Asserts(items)
  }

  /** The values the last item on a property sets. */
  function LastValues(items: seq<Item>, k: Name): set<Value> {
    if items == [] then {}
    else
      var last := items[|items| - 1];
      if last.SetProp? && last.key == k then last.values else LastValues(items[..|items| - 1], k)
  }

  /** No property is set twice with a value the last setting does not have. */
  ghost predicate NoClash(items: seq<Item>) {
    forall i | 0 <= i < |items| && items[i].SetProp? :: items[i].values <= LastValues(items, items[i].key)
  }

  lemma KeysSnoc(items: seq<Item>, k: Name)
    requires items != []
    ensures var last := items[|items| - 1];
      k in Keys(items) <==> k in Keys(items[..|items| - 1]) || (last.SetProp? && last.key == k)
  {
    var front := items[..|items| - 1];
    if k in Keys(items) {
      var i :| 0 <= i < |items| && items[i].SetProp? && items[i].key == k;
      if i < |front| { assert front[i] == items[i]; }
    }
    if k in Keys(front) {
      var i :| 0 <= i < |front| && front[i].SetProp? && front[i].key == k;
      assert items[i] == front[i];
    }
  }

  lemma AssertsSnoc(items: seq<Item>)
    requires items != []
    ensures Asserts(items) == Asserts(items[..|items| - 1]) + ItemFeatures(items[|items| - 1])
  {
    var front, last := items[..|items| - 1], items[|items| - 1];
    assert items == front + [last];
    AssertsBoth(front, [last]);
    assert Asserts([last]) == ItemFeatures(last) by { assert [last][0] == last; }
  }

  /** In order, a property that is set ends with its last values and everything else is kept or added. */
  lemma {:induction false} InOrderHas(items: seq<Item>, fs: set<Feature>, f: Feature)
    ensures f in InOrder(items, fs) <==>
      if f.Prop? && f.key in Keys(items) then f.value in LastValues(items, f.key)
      else f in fs || (f.Label? && f in Asserts(items))
  {
    if items != [] {
      InOrderHas(items[..|items| - 1], fs, f);
      if f.Prop? { KeysSnoc(items, f.key); }
      AssertsSnoc(items);
      assert f in ItemFeatures(items[|items| - 1]) <==> AssertedBy(items[|items| - 1], f);
    }
  }

  lemma {:induction false} LastIsAsserted(items: seq<Item>, k: Name, v: Value)
    requires v in LastValues(items, k)
    ensures Prop(k, v) in Asserts(items)
  {
    AssertsSnoc(items);
    var last := items[|items| - 1];
    if last.SetProp? && last.key == k {
      assert AssertedBy(last, Prop(k, v));
    } else {
      LastIsAsserted(items[..|items| - 1], k, v);
    }
  }

  lemma AssertedProp(items: seq<Item>, k: Name, v: Value)
    requires Prop(k, v) in Asserts(items)
    ensures exists i :: 0 <= i < |items| && items[i].SetProp? && items[i].key == k && v in items[i].values
  {
    var i :| 0 <= i < |items| && Prop(k, v) in ItemFeatures(items[i]);
    assert AssertedBy(items[i], Prop(k, v));
  }

  /** Doing all items at once is doing them in order exactly when no two of them clash. */
  lemma TogetherIsInOrderIff(items: seq<Item>, fs: set<Feature>)
    ensures Together(items, fs) == InOrder(items, fs) <==> NoClash(items)
  {
    if NoClash(items) {
      forall f ensures f in Together(items, fs) <==> f in InOrder(items, fs) {
        InOrderHas(items, fs, f);
        if f.Prop? { SameProp(items, f); } else if !f.Label? && f in Asserts(items) { AssertKeys(items, f); }
      }
    } else {
      var i :| 0 <= i < |items| && items[i].SetProp? && !(items[i].values <= LastValues(items, items[i].key));
      var v :| v in items[i].values && v !in LastValues(items, items[i].key);
      var f := Prop(items[i].key, v);
      assert AssertedBy(items[i], f) && f in ItemFeatures(items[i]) && f in Asserts(items);
      InOrderHas(items, fs, f);
      assert f in Together(items, fs) && f !in InOrder(items, fs);
    }
  }

  lemma SameProp(items: seq<Item>, f: Feature)
    requires NoClash(items) && f.Prop?
    ensures f in Asserts(items) <==> f.key in Keys(items) && f.value in LastValues(items, f.key)
  {
    if f in Asserts(items) {
      AssertedProp(items, f.key, f.value);
      AssertKeys(items, f);
    }
    if f.value in LastValues(items, f.key) { LastIsAsserted(items, f.key, f.value); }
  }

  /** The same property set twice to different values keeps both. */
  lemma SetTwiceKeepsBoth(k: Name, v: Value, w: Value)
    requires v != w
    ensures var items := [SetProp(k, {v}), SetProp(k, {w})];
      Prop(k, v) in Together(items, {}) && Prop(k, v) !in InOrder(items, {})
  {
    var items := [SetProp(k, {v}), SetProp(k, {w})];
    InOrderHas(items, {}, Prop(k, v));
    assert AssertedBy(items[0], Prop(k, v)) && Prop(k, v) in ItemFeatures(items[0]);
    assert items[1].SetProp? && items[1].key == k;
  }

  // ---------------------------------------------------------------------------
  // Rows with SET in order
  // ---------------------------------------------------------------------------

  function Features(g: Graph, s: Entity): (r: set<Feature>)
    ensures forall f :: f in r <==> Triple(s, f) in g
  {
    set x | x in g && x.s == s :: x.f
  }

  /** A found entity, and a created one, as the items in order leave them. */
  lemma RowStepInOrder(j: Job, g: Graph, h: Graph, i: nat, s: Entity)
    requires Sound(j, g) && i < |j.rows| && NoClash(j.onMatch) && NoClash(j.onCreate)
    requires Features(h, Fresh(i)) == {}
    ensures var ss := Matched(h, j.p, j.rows[i]);
      var edges := if ss == {} then Features(EdgesOf(j.rows[i]), s) else {};
      && (s in ss ==> Features(RowStep(j, h, i), s) == InOrder(j.onMatch, Features(h, s)))
      && (ss == {} && s == Fresh(i) ==> Features(RowStep(j, h, i), s) == InOrder(j.onCreate, Need(j.p, j.rows[i])))
      && (s !in ss && !(ss == {} && s == Fresh(i)) ==> Features(RowStep(j, h, i), s) == Features(h, s) + edges)
  {
    var ss, row := Matched(h, j.p, j.rows[i]), j.rows[i];
    if s in ss {
      TogetherIsInOrderIff(j.onMatch, Features(h, s));
      forall f ensures f in Features(RowStep(j, h, i), s) <==> f in Together(j.onMatch, Features(h, s)) {
        InstallSet(h, ss, j.onMatch, Triple(s, f));
      }
    } else if ss == {} && s == Fresh(i) {
      TogetherIsInOrderIff(j.onCreate, Need(j.p, row));
      NeedUntouched(j, g, row);
      forall f ensures f in Features(RowStep(j, h, i), s) <==> f in Together(j.onCreate, Need(j.p, row)) {
        assert Triple(s, f) !in h by { assert f !in Features(h, Fresh(i)); }
      }
    } else {
      var edges := if ss == {} then Features(EdgesOf(row), s) else {};
      forall f ensures f in Features(RowStep(j, h, i), s) <==> f in Features(h, s) + edges {
        InstallSet(h, ss, j.onMatch, Triple(s, f));
      }
    }
  }

  lemma NeedUntouched(j: Job, g: Graph, row: Row)
    requires Sound(j, g) && row in j.rows
    ensures Together(j.onCreate, Need(j.p, row)) == Created(j, row)
  {
    var i :| 0 <= i < |j.rows| && j.rows[i] == row;
    assert Shaped(j.p, row);
  }
}
