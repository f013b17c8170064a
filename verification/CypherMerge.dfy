/**
 * Conditional MERGE: the statement, its rewrite into a match branch and a create branch, and what
 * each branch does to a property graph.
 */
module CypherMerge {
  import opened Ledger

  type Name = string
  type Value = string

  /** An edge from one stored node to another. */
  datatype Link = Link(from: nat, kind: Name, to: nat)

  /**
   * What a graph says about an entity. A relationship is a plain edge, a fact about its source node;
   * a reifier is an entity of its own that stands for the edge and carries its properties.
   */
  datatype Feature =
    | Prop(key: Name, value: Value) | Label(name: Name) | HasEdge(kind: Name, to: nat) | Reifies(link: Link)

  /** Entities of the stored graph, and the one a statement creates for its row `i`. */
  datatype Entity = Stored(n: nat) | Fresh(row: nat)

  datatype Triple = Triple(s: Entity, f: Feature)

  type Graph = set<Triple>

  /** One SET item: replace a property by some values (none removes it), or add labels. */
  datatype Item = SetProp(key: Name, values: set<Value>) | AddLabels(names: set<Name>)

  /**
   * The MERGE pattern: labels and property names; `isLink` for a relationship pattern with a
   * variable, `inline` if it has a property map, perhaps an empty one.
   */
  datatype Pattern = Pattern(labels: set<Name>, keys: set<Name>, isLink: bool, inline: bool, simple: bool)

  /** What a row binds: the property values of the pattern, and the link for a relationship. */
  datatype Row = Row(values: map<Name, Value>, link: Option<Link>)

  datatype MergeClause = MergeClause(pattern: Pattern, onCreate: seq<Item>, onMatch: seq<Item>)

  datatype Read = InlineRows | OtherRead | MatchPattern(pattern: Pattern)

  datatype Write = Merge(clause: MergeClause) | Set(items: seq<Item>) | OtherWrite

  datatype Update = Update(leading: seq<Read>, writes: seq<Write>)

  datatype MergeError = Rejected | Unsupported

  // ---------------------------------------------------------------------------
  // The rewrite
  // ---------------------------------------------------------------------------

  datatype Plan = MergeSet(clause: MergeClause, trailing: seq<Item>) | MergePerRowSet(update: Update)

  /** The items of the SET clauses, one after the other. */
  function SetItems(writes: seq<Write>): seq<Item> {
    if writes == [] then []
    else (if writes[0].Set? then writes[0].items else []) + SetItems(writes[1..])
  }

  /** SET clauses contribute their items in order, other clauses nothing. */
  lemma {:induction false} SetItemsInOrder(before: seq<Write>, w: Write, after: seq<Write>)
    ensures SetItems(before + ([w] + after)) == SetItems(before) + ((if w.Set? then w.items else []) + SetItems(after))
  {
    var here := [w] + after;
    assert here[1..] == after;
    if before == [] {
      assert before + here == here;
    } else {
      SetItemsInOrder(before[1..], w, after);
      assert (before + here)[1..] == before[1..] + here;
      Assoc(if before[0].Set? then before[0].items else [], SetItems(before[1..]), SetItems(here));
    }
  }

  lemma Assoc<T>(a: seq<T>, b: seq<T>, c: seq<T>)
    ensures a + (b + c) == (a + b) + c
  {
  }

  predicate AllSets(writes: seq<Write>) {
    forall i | 0 <= i < |writes| :: writes[i].Set?
  }

  /** `detect_conditional`, for statements that begin with MERGE. */
  function Detect(u: Update): Option<Plan> {
    if u.writes == [] || !u.writes[0].Merge? || !AllSets(u.writes[1..]) then None
    else
      var m := u.writes[0].clause;
      var trailing := SetItems(u.writes[1..]);
      if m.onMatch == [] && trailing == [] then None
      else if !m.pattern.simple then None
      else if u.leading == [] then Some(MergeSet(m, trailing))
      else if m.pattern.isLink || forall i | 0 <= i < |u.leading| :: u.leading[i].InlineRows?
      then Some(MergePerRowSet(u))
      else None
  }

  /** The statement is a MERGE of a supported pattern followed by SETs, and has something to set on a match. */
  ghost predicate Conditional(u: Update) {
    && u.writes != [] && u.writes[0].Merge? && u.writes[0].clause.pattern.simple
    && (forall i | 1 <= i < |u.writes| :: u.writes[i].Set?)
    && (u.writes[0].clause.onMatch != [] || exists i :: 1 <= i < |u.writes| && u.writes[i].items != [])
  }

  lemma {:induction false} SetItemsEmptyIff(writes: seq<Write>)
    requires AllSets(writes)
    ensures SetItems(writes) == [] <==> forall i | 0 <= i < |writes| :: writes[i].items == []
  {
    if writes != [] {
      SetItemsEmptyIff(writes[1..]);
      assert forall i | 1 <= i < |writes| :: writes[i] == writes[1..][i - 1];
    }
  }

  /**
   * Which plan a statement gets. Without a leading read it probes, with the clause and every
   * trailing SET item; after one it stages a pair if it merges a relationship or reads only inline
   * rows; and every other statement is lowered as it is.
   */
  lemma DetectIff(u: Update)
    ensures Detect(u).None? <==>
      !Conditional(u)
      || (u.leading != [] && !u.writes[0].clause.pattern.isLink
          && exists i :: 0 <= i < |u.leading| && !u.leading[i].InlineRows?)
    ensures Detect(u).Some? && Detect(u).value.MergeSet? <==> Conditional(u) && u.leading == []
    ensures Detect(u).Some? && Detect(u).value.MergeSet? ==>
      Detect(u) == Some(MergeSet(u.writes[0].clause, SetItems(u.writes[1..])))
    ensures Detect(u).Some? && Detect(u).value.MergePerRowSet? ==> Detect(u) == Some(MergePerRowSet(u))
  {
    if u.writes != [] {
      var rest := u.writes[1..];
      assert forall i | 1 <= i < |u.writes| :: u.writes[i] == rest[i - 1];
      assert AllSets(rest) <==> forall i | 1 <= i < |u.writes| :: u.writes[i].Set?;
      if AllSets(rest) { SetItemsEmptyIff(rest); }
    }
  }

  /** `build_merge_per_row_on_match_ast`. */
  function BuildOnMatch(u: Update, m: MergeClause): Update {
    Update(u.leading + [MatchPattern(m.pattern)], [Set(m.onMatch + SetItems(u.writes))])
  }

  /** Folds trailing SETs into ON CREATE SET and drops their clauses. */
  function CreateWrites(writes: seq<Write>, trailing: seq<Item>): seq<Write> {
    if writes == [] then []
    else
      var rest := CreateWrites(writes[1..], trailing);
      match writes[0]
      case Merge(m) => [Merge(MergeClause(m.pattern, m.onCreate + trailing, []))] + rest
      case Set(_) => rest
      case OtherWrite => [OtherWrite] + rest
  }

  /** `build_merge_per_row_create_ast`. */
  function BuildCreate(u: Update): Update {
    Update(u.leading, CreateWrites(u.writes, SetItems(u.writes)))
  }

  // ---------------------------------------------------------------------------
  // What a branch does
  // ---------------------------------------------------------------------------

  /** The facts that identify a row's entity. */
  function Need(p: Pattern, row: Row): set<Feature> {
    (set l | l in p.labels :: Label(l))
    + (set k | k in row.values :: Prop(k, row.values[k]))
    + (if row.link.Some? then {Reifies(row.link.value)} else {})
  }

  function EdgeOf(link: Link): Triple {
    Triple(Stored(link.from), HasEdge(link.kind, link.to))
  }

  /** The plain edge a row is about, if it is about one. */
  function EdgesOf(row: Row): set<Triple> {
    if row.link.Some? then {EdgeOf(row.link.value)} else {}
  }

  /** For a relationship, both its edge and a reifier of it. */
  predicate Matches(g: Graph, p: Pattern, row: Row, s: Entity) {
    EdgesOf(row) <= g && forall f | f in Need(p, row) :: Triple(s, f) in g
  }

  /** The entities of the graph that a row matches. */
  function Matched(g: Graph, p: Pattern, row: Row): (r: set<Entity>)
    ensures forall s :: s in r <==> (exists x :: x in g && x.s == s) && Matches(g, p, row, s)
  {
    set x | x in g && Matches(g, p, row, x.s) :: x.s
  }

  /**
   * An entity matches when it has every label of the pattern and the row's value of every key, and for
   * a relationship when the edge is there and it stands for it.
   */
  lemma MatchesIff(g: Graph, p: Pattern, row: Row, s: Entity)
    ensures Matches(g, p, row, s) <==>
      && (forall l | l in p.labels :: Triple(s, Label(l)) in g)
      && (forall k | k in row.values :: Triple(s, Prop(k, row.values[k])) in g)
      && (row.link.Some? ==>
            var link := row.link.value;
            Triple(s, Reifies(link)) in g && Triple(Stored(link.from), HasEdge(link.kind, link.to)) in g)
  {
    if Matches(g, p, row, s) {
      forall l | l in p.labels ensures Triple(s, Label(l)) in g { assert Label(l) in Need(p, row); }
      forall k | k in row.values ensures Triple(s, Prop(k, row.values[k])) in g {
        assert Prop(k, row.values[k]) in Need(p, row);
      }
      if row.link.Some? {
        assert Reifies(row.link.value) in Need(p, row) && EdgeOf(row.link.value) in EdgesOf(row);
      }
    }
  }

  function Keys(items: seq<Item>): (r: set<Name>)
    ensures forall k :: k in r <==> exists i :: 0 <= i < |items| && items[i].SetProp? && items[i].key == k
  {
    set i | 0 <= i < |items| && items[i].SetProp? :: items[i].key
  }

  predicate AssertedBy(item: Item, f: Feature) {
    match item
    case SetProp(k, values) => f.Prop? && f.key == k && f.value in values
    case AddLabels(names) => f.Label? && f.name in names
  }

  function ItemFeatures(item: Item): (r: set<Feature>)
    ensures forall f :: f in r <==> AssertedBy(item, f)
  {
    match item
    case SetProp(k, values) => set v | v in values :: Prop(k, v)
    case AddLabels(names) => set n | n in names :: Label(n)
  }

  /** Everything the items assert. */
  function Asserts(items: seq<Item>): (r: set<Feature>)
    ensures forall f :: f in r <==> exists i :: 0 <= i < |items| && f in ItemFeatures(items[i])
  {
    set i, f | 0 <= i < |items| && f in ItemFeatures(items[i]) :: f
  }

  datatype Delta = Delta(retracts: set<Triple>, asserts: set<Triple>)

  /** SET over entities: retract every old value of a mentioned property, assert what is new. */
  function SetDelta(g: Graph, ss: set<Entity>, items: seq<Item>): Delta {
    Delta(set x | x in g && x.s in ss && x.f.Prop? && x.f.key in Keys(items),
          set s, f | s in ss && f in Asserts(items) :: Triple(s, f))
  }

  /** All entities matched by some row. */
  function MatchedBy(g: Graph, p: Pattern, rows: seq<Row>): (r: set<Entity>)
    ensures forall s :: s in r <==> exists i :: 0 <= i < |rows| && s in Matched(g, p, rows[i])
  {
    set i, s | 0 <= i < |rows| && s in Matched(g, p, rows[i]) :: s
  }

  predicate Absent(g: Graph, p: Pattern, row: Row) {
    Matched(g, p, row) == {}
  }

  /** The guard of the create branch: without a property map it looks for the plain edge only. */
  predicate Guard(g: Graph, p: Pattern, row: Row) {
    if row.link.Some? && !p.inline then EdgeOf(row.link.value) !in g else Absent(g, p, row)
  }

  /** The create branch: a fresh entity, and for a relationship its edge, for each row let through. */
  function CreateDelta(g: Graph, p: Pattern, rows: seq<Row>, items: seq<Item>): Delta {
    Delta({}, MadeEntities(g, p, rows, items) + MadeEdges(g, p, rows))
  }

  function MadeEntities(g: Graph, p: Pattern, rows: seq<Row>, items: seq<Item>): set<Triple> {
    set i, f | 0 <= i < |rows| && Guard(g, p, rows[i]) && f in Need(p, rows[i]) + Asserts(items) :: Triple(Fresh(i), f)
  }

  function MadeEdges(g: Graph, p: Pattern, rows: seq<Row>): (r: set<Triple>)
    ensures forall x :: x in r <==> exists i :: 0 <= i < |rows| && Guard(g, p, rows[i]) && x in EdgesOf(rows[i])
  {
    set i, x | 0 <= i < |rows| && Guard(g, p, rows[i]) && x in EdgesOf(rows[i]) :: x
  }

  /**
   * ON CREATE SET on a node may not name a property of its pattern; on a relationship it may only
   * set properties.
   */
  function CreateRefused(p: Pattern, items: seq<Item>): Option<MergeError> {
    if p.isLink then
      if exists i | 0 <= i < |items| :: items[i].AddLabels? then Some(Unsupported) else None
    else if Keys(items) !! p.keys then None
    else Some(Rejected)
  }

  /** What is refused: a property the pattern names for a node, labels for a relationship. */
  lemma CreateRefusedIff(p: Pattern, items: seq<Item>)
    ensures CreateRefused(p, items) == Some(Rejected) <==>
      !p.isLink && exists i :: 0 <= i < |items| && items[i].SetProp? && items[i].key in p.keys
    ensures CreateRefused(p, items) == Some(Unsupported) <==>
      p.isLink && exists i :: 0 <= i < |items| && items[i].AddLabels?
    ensures CreateRefused(p, items) in {None, Some(Rejected), Some(Unsupported)}
  {
    if !p.isLink && !(Keys(items) !! p.keys) {
      var k :| k in Keys(items) && k in p.keys;
    }
  }

  /** What the single-transaction lowering makes of an update over the given rows. */
  function Lower(u: Update, g: Graph, rows: seq<Row>): Result<Delta, MergeError> {
    if |u.writes| != 1 then Err(Unsupported)
    else
      match u.writes[0]
      case Set(items) =>
        if u.leading == [] || !u.leading[|u.leading| - 1].MatchPattern? then Err(Unsupported)
        else Ok(SetDelta(g, MatchedBy(g, u.leading[|u.leading| - 1].pattern, rows), items))
      case Merge(m) =>
        if m.onMatch != [] || !m.pattern.simple then Err(Unsupported)
        else
          var refused := CreateRefused(m.pattern, m.onCreate);
          if refused.Some? then Err(refused.value) else Ok(CreateDelta(g, m.pattern, rows, m.onCreate))
      case OtherWrite => Err(Unsupported)
  }

  function Install(g: Graph, d: Delta): Graph {
    (g - d.retracts) + d.asserts
  }

  function Concat(a: Delta, b: Delta): Delta {
    Delta(a.retracts + b.retracts, a.asserts + b.asserts)
  }

  /** The edges an entity stands for. */
  function LinksOf(g: Graph, s: Entity): (r: set<Link>)
    ensures forall l :: l in r <==> Triple(s, Reifies(l)) in g
  {
    set x | x in g && x.s == s && x.f.Reifies? :: x.f.link
  }

  /** What an entity carries beyond the edges it stands for. */
  function Metadata(g: Graph, s: Entity): (r: set<Feature>)
    ensures forall f :: f in r <==> Triple(s, f) in g && !f.Reifies?
  {
    set x | x in g && x.s == s && !x.f.Reifies? :: x.f
  }

  /**
   * The entity loses something and nothing is left of it but the edge it stands for. One that
   * stands for several edges is left alone.
   */
  predicate Emptied(g: Graph, d: Delta, s: Entity) {
    Metadata(d.retracts, s) != {} && Metadata(Install(g, d), s) == {} && |LinksOf(g, s)| == 1
  }

  /** `cascade_attachment_retracts`, its second pass: an emptied reifier goes with its properties. */
  function Cascade(g: Graph, d: Delta): Delta {
    Delta(d.retracts + (set x | x in g && x.f.Reifies? && Emptied(g, d, x.s)), d.asserts)
  }

  /** One transaction as staged: lowered, then what the engine retracts with it. */
  function Stage(u: Update, g: Graph, rows: seq<Row>): Result<Delta, MergeError> {
    var lowered := Lower(u, g, rows);
    if lowered.Err? then lowered else Ok(Cascade(g, lowered.value))
  }

  /** `stage_pair_from_txns`: both branches against the same base, in one commit. */
  function StagePair(u: Update, g: Graph, rows: seq<Row>): Result<Graph, MergeError>
    requires u.writes != [] && u.writes[0].Merge?
  {
    var first := Stage(BuildOnMatch(u, u.writes[0].clause), g, rows);
    var second := Stage(BuildCreate(u), g, rows);
    if first.Err? then Err(first.error)
    else if second.Err? then Err(second.error)
    else Ok(Install(g, Concat(first.value, second.value)))
  }

  /** Standalone MERGE: probe, then run one branch. */
  function ProbeThenBranch(m: MergeClause, trailing: seq<Item>, g: Graph, row: Row): Result<Graph, MergeError> {
    var branch :=
      if Absent(g, m.pattern, row)
      then Stage(Update([], [Merge(MergeClause(m.pattern, m.onCreate + trailing, []))]), g, [row])
      else Stage(Update([MatchPattern(m.pattern)], [Set(m.onMatch + trailing)]), g, [row]);
    if branch.Err? then Err(branch.error) else Ok(Install(g, branch.value))
  }

  /** A whole statement: the plan it gets, or its direct lowering. */
  function Execute(u: Update, g: Graph, rows: seq<Row>): Result<Graph, MergeError>
    requires rows != []
  {
    match Detect(u)
    case Some(MergeSet(m, trailing)) => ProbeThenBranch(m, trailing, g, rows[0])
    case Some(MergePerRowSet(v)) => (DetectIff(u); StagePair(v, g, rows))
    case None =>
      var staged := Stage(u, g, rows);
      if staged.Err? then Err(staged.error) else Ok(Install(g, staged.value))
  }

  // ---------------------------------------------------------------------------
  // The rewrite of a per-row statement
  // ---------------------------------------------------------------------------

  lemma {:induction false} SetsFold(writes: seq<Write>, trailing: seq<Item>)
    requires AllSets(writes)
    ensures CreateWrites(writes, trailing) == []
  {
    if writes != [] { SetsFold(writes[1..], trailing); }
  }

  /** A per-row plan rewrites into a SET over the matches and a MERGE without ON MATCH. */
  lemma RewriteShape(u: Update)
    requires Detect(u) == Some(MergePerRowSet(u))
    ensures var m, trailing := u.writes[0].clause, SetItems(u.writes[1..]);
      && BuildOnMatch(u, m) == Update(u.leading + [MatchPattern(m.pattern)], [Set(m.onMatch + trailing)])
      && BuildCreate(u) == Update(u.leading, [Merge(MergeClause(m.pattern, m.onCreate + trailing, []))])
  {
    var trailing := SetItems(u.writes[1..]);
    assert SetItems(u.writes) == [] + trailing == trailing;
    SetsFold(u.writes[1..], trailing);
  }

  /** What only asserts empties nothing. */
  lemma AssertsEmptyNothing(g: Graph, d: Delta)
    requires d.retracts == {}
    ensures Cascade(g, d) == d
  {
  }

  /** Both branches are staged, unless ON CREATE SET with the trailing SETs is refused. */
  lemma PairLowers(u: Update, g: Graph, rows: seq<Row>)
    requires Detect(u) == Some(MergePerRowSet(u))
    ensures var m, trailing := u.writes[0].clause, SetItems(u.writes[1..]);
      var refused := CreateRefused(m.pattern, m.onCreate + trailing);
      StagePair(u, g, rows) ==
        if refused.Some? then Err(refused.value)
        else Ok(Install(g, Concat(Cascade(g, SetDelta(g, MatchedBy(g, m.pattern, rows), m.onMatch + trailing)),
                                  CreateDelta(g, m.pattern, rows, m.onCreate + trailing))))
  {
    RewriteShape(u);
    var m, trailing := u.writes[0].clause, SetItems(u.writes[1..]);
    AssertsEmptyNothing(g, CreateDelta(g, m.pattern, rows, m.onCreate + trailing));
  }
}
