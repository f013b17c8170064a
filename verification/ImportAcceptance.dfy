/**
 * Which scripts are imported, and which keys are learned from them, read off the statements alone.
 */
module ImportAcceptance {
  import opened Ledger
  import opened Octets
  import opened Identity
  import opened CypherImport
  import opened ImportOrder
  import opened KeySets

  // ---------------------------------------------------------------------------
  // Learning
  // ---------------------------------------------------------------------------

  ghost predicate IsMatched(ss: seq<Statement>, node: NodePattern) {
    exists s :: s in ss && s.Match? && node in s.nodes
  }

  /** One label and a property map that is not empty. */
  predicate HasMatchShape(node: NodePattern) {
    |node.kinds| == 1 && node.props.Some? && node.props.value != []
  }

  /** Every matched node has one label and properties, and nodes of one label the same names of them. */
  ghost predicate Learnable(ss: seq<Statement>) {
    && BadMatch !in ss
    && (forall a | IsMatched(ss, a) :: HasMatchShape(a))
    && (forall a, b | IsMatched(ss, a) && IsMatched(ss, b) && a.kinds == b.kinds ::
          Names(a.props.value) == Names(b.props.value))
  }

  lemma SightedIff(ss: seq<Statement>, o: Sighting)
    ensures o in Sightings(ss) <==> (o.None? && BadMatch in ss) || exists a :: IsMatched(ss, a) && o == SightingOf(a)
  {
    SightingsIn(ss, o);
    if s :| s in ss && o in SightingsOf(s) {
      if s.Match? {
        var i :| 0 <= i < |s.nodes| && o == SightingOf(s.nodes[i]);
        assert IsMatched(ss, s.nodes[i]);
      }
    }
    if a :| IsMatched(ss, a) && o == SightingOf(a) {
      var s :| s in ss && s.Match? && a in s.nodes;
      var i :| 0 <= i < |s.nodes| && s.nodes[i] == a;
      assert SightingsOf(s)[i] == o;
    }
    if o.None? && BadMatch in ss { assert o in SightingsOf(BadMatch); }
  }

  /** Learning succeeds exactly for scripts whose matched nodes agree on each label's property names. */
  lemma LearnsIff(ss: seq<Statement>)
    ensures Learn(map[], Sightings(ss)).Ok? <==> Learnable(ss)
  {
    LearnIff(map[], Sightings(ss));
    if Learnable(ss) {
      LearnableIsOneKeySet(ss);
    }
    if OneKeySet(map[], Sightings(ss)) {
      OneKeySetIsLearnable(ss);
    }
  }

  lemma LearnableIsOneKeySet(ss: seq<Statement>)
    requires Learnable(ss)
    ensures OneKeySet(map[], Sightings(ss))
  {
    forall o | o in Sightings(ss) ensures o.Some? {
      SightedIff(ss, o);
      var a :| IsMatched(ss, a) && o == SightingOf(a);
      assert HasMatchShape(a);
    }
    forall o, o' | o in Sightings(ss) && o' in Sightings(ss) && o.value.0 == o'.value.0
      ensures o.value.1 == o'.value.1
    {
      SightedIff(ss, o);
      SightedIff(ss, o');
      var a :| IsMatched(ss, a) && o == SightingOf(a);
      var b :| IsMatched(ss, b) && o' == SightingOf(b);
      assert HasMatchShape(a) && HasMatchShape(b);
      assert a.kinds == [o.value.0] == b.kinds;
      KeyNamesIff(a.props.value, b.props.value);
    }
  }

  lemma OneKeySetIsLearnable(ss: seq<Statement>)
    requires OneKeySet(map[], Sightings(ss))
    ensures Learnable(ss)
  {
    SightedIff(ss, None);
    forall a | IsMatched(ss, a) ensures HasMatchShape(a) && SightingOf(a) in Sightings(ss) {
      SightedIff(ss, SightingOf(a));
      assert Agree(map[], SightingOf(a));
    }
    assert None in Sightings(ss) ==> Agree(map[], None);
    forall a, b | IsMatched(ss, a) && IsMatched(ss, b) && a.kinds == b.kinds
      ensures Names(a.props.value) == Names(b.props.value)
    {
      var o, o' := SightingOf(a), SightingOf(b);
      assert HasMatchShape(a) && HasMatchShape(b) && o in Sightings(ss) && o' in Sightings(ss);
      assert o.value.1 == o'.value.1;
      KeyNamesIff(a.props.value, b.props.value);
    }
  }

  /** What is learned: for each matched label the names its nodes are matched by, and nothing else. */
  lemma LearnedKeys(ss: seq<Statement>)
    requires Learn(map[], Sightings(ss)).Ok?
    ensures var keys := Learn(map[], Sightings(ss)).value;
      && (forall a | IsMatched(ss, a) :: HasMatchShape(a) && a.kinds[0] in keys
            && forall k :: k in keys[a.kinds[0]] <==> k in Names(a.props.value))
      && (forall kind | kind in keys :: exists a :: IsMatched(ss, a) && a.kinds == [kind])
  {
    LearnsIff(ss);
    LearnIff(map[], Sightings(ss));
    var keys := Learn(map[], Sightings(ss)).value;
    forall a | IsMatched(ss, a)
      ensures a.kinds[0] in keys && forall k :: k in keys[a.kinds[0]] <==> k in Names(a.props.value)
    {
      SightedIff(ss, SightingOf(a));
      assert HasMatchShape(a) && keys[a.kinds[0]] == KeyNames(a.props.value);
      forall k ensures k in KeyNames(a.props.value) <==> k in Names(a.props.value) { KeyNamesHas(a.props.value, k); }
    }
    forall kind | kind in keys ensures exists a :: IsMatched(ss, a) && a.kinds == [kind] {
      var o :| o in Sightings(ss) && o.Some? && o.value.0 == kind;
      SightedIff(ss, o);
      var a :| IsMatched(ss, a) && o == SightingOf(a);
      assert a.kinds == [kind];
    }
  }

  // ---------------------------------------------------------------------------
  // Patterns
  // ---------------------------------------------------------------------------

  /** The first entry for each key is a scalar. */
  ghost predicate KeysScalar(ks: seq<Name>, props: Props) {
    forall k | k in ks :: HasScalar(props, k)
  }

  ghost predicate HasScalar(props: Props, key: Name) {
    exists text :: FirstValue(props, key, Scalar(text))
  }

  /** A bound variable comes bare; anything else has literal properties, and scalars for its keys. */
  ghost predicate NodeOk(keys: Keys, bound: set<string>, node: NodePattern) {
    if node.name.Some? && node.name.value in bound then node.kinds == [] && node.props.None?
    else
      && (node.props.Some? ==> forall i | 0 <= i < |node.props.value| :: !node.props.value[i].1.NotLiteral?)
      && (CarriesKeys(keys, node) ==> KeysScalar(keys[node.kinds[0]], node.props.value))
  }

  /** Directed, of one type and fixed length, with literal properties, and none of them under Nary. */
  ghost predicate RelOk(cfg: Config, rel: RelPattern) {
    && !rel.dir.Either? && !rel.ranged && |rel.types| == 1
    && (forall i | 0 <= i < |rel.props| :: !rel.props[i].1.NotLiteral?)
    && (cfg.policy.Nary? ==> forall i | 0 <= i < |rel.props| :: rel.props[i].1.Null?)
  }

  ghost predicate TailOk(cfg: Config, keys: Keys, bound: set<string>, tail: seq<(RelPattern, NodePattern)>)
    decreases |tail|
  {
    tail == []
    || (NodeOk(keys, bound, tail[0].1) && RelOk(cfg, tail[0].0)
        && TailOk(cfg, keys, bound + NameOf(tail[0].1), tail[1..]))
  }

  ghost predicate PartOk(cfg: Config, keys: Keys, bound: set<string>, part: Part) {
    !part.isPath && NodeOk(keys, bound, part.head) && TailOk(cfg, keys, bound + NameOf(part.head), part.tail)
  }

  ghost predicate PartsOk(cfg: Config, keys: Keys, bound: set<string>, parts: seq<Part>)
    decreases |parts|
  {
    parts == []
    || (PartOk(cfg, keys, bound, parts[0])
        && PartsOk(cfg, keys, bound + (NameOf(parts[0].head) + TailNames(parts[0].tail)), parts[1..]))
  }

  /** Only CREATE clauses, each pattern fit for what is bound before it. */
  ghost predicate ClausesOk(cfg: Config, keys: Keys, bound: set<string>, clauses: seq<Clause>)
    decreases |clauses|
  {
    clauses == []
    || (clauses[0].Create? && PartsOk(cfg, keys, bound, clauses[0].parts)
        && ClausesOk(cfg, keys, bound + PartsNames(clauses[0].parts), clauses[1..]))
  }

  lemma {:induction false} KeyValuesSomeIff(ks: seq<Name>, props: Props)
    ensures KeyValues(ks, props).Some? <==> KeysScalar(ks, props)
  {
    if ks != [] {
      var front, last := ks[..|ks| - 1], ks[|ks| - 1];
      KeyValuesSomeIff(front, props);
      ScalarIff(props, last);
      assert forall k :: k in ks <==> k in front || k == last by { assert ks == front + [last]; }
    }
  }

  lemma ScalarIff(props: Props, key: Name)
    ensures HasScalar(props, key) <==> Find(props, key).Some? && Find(props, key).value.Scalar?
  {
    FindIff(props, key);
    if Find(props, key).Some? && Find(props, key).value.Scalar? {
      assert FirstValue(props, key, Scalar(Find(props, key).value.text));
    }
  }

  lemma NodeOkIff(cfg: Config, keys: Keys, e: Emit, node: NodePattern)
    ensures CreateNode(cfg, keys, e, node).Ok? <==> NodeOk(keys, e.vars.Keys, node)
    ensures CreateNode(cfg, keys, e, node).Ok? ==>
      CreateNode(cfg, keys, e, node).value.1.vars.Keys == e.vars.Keys + NameOf(node)
  {
    KeyedIff(keys, node);
    if CarriesKeys(keys, node) { KeyValuesSomeIff(keys[node.kinds[0]], node.props.value); }
  }

  lemma {:induction false} WrittenNoneIff(cfg: Config, props: Props)
    ensures Written(cfg, props) == [] <==> forall i | 0 <= i < |props| :: props[i].1.Null?
  {
    if props != [] {
      WrittenNoneIff(cfg, props[1..]);
      assert forall i | 0 < i < |props| :: props[i] == props[1..][i - 1];
    }
  }

  lemma RelOkIff(cfg: Config, rel: RelPattern, from: Bytes, to: Bytes)
    ensures !rel.dir.Either? && EdgeObject(cfg, rel, from, to).Ok? <==> RelOk(cfg, rel)
  {
    WrittenNoneIff(cfg, rel.props);
  }

  lemma {:induction false} TailOkIff(cfg: Config, keys: Keys, e: Emit, subject: Bytes,
                                     tail: seq<(RelPattern, NodePattern)>)
    ensures var r := EmitTail(cfg, keys, e, subject, tail);
      && (r.Ok? <==> TailOk(cfg, keys, e.vars.Keys, tail))
      && (r.Ok? ==> r.value.vars.Keys == e.vars.Keys + TailNames(tail))
    decreases |tail|
  {
    if tail != [] {
      var (rel, node) := tail[0];
      NodeOkIff(cfg, keys, e, node);
      var made := CreateNode(cfg, keys, e, node);
      if made.Ok? {
        var (target, e') := made.value;
        RelOkIff(cfg, rel, subject, target);
        RelOkIff(cfg, rel, target, subject);
        var edge := if rel.dir.Outgoing? then EdgeObject(cfg, rel, subject, target)
                    else EdgeObject(cfg, rel, target, subject);
        if !rel.dir.Either? && edge.Ok? {
          TailOkIff(cfg, keys, e'.(out := e'.out + [edge.value]), target, tail[1..]);
        }
      }
    }
  }

  lemma PartOkIff(cfg: Config, keys: Keys, e: Emit, part: Part)
    ensures var r := EmitPart(cfg, keys, e, part);
      && (r.Ok? <==> PartOk(cfg, keys, e.vars.Keys, part))
      && (r.Ok? ==> r.value.vars.Keys == e.vars.Keys + (NameOf(part.head) + TailNames(part.tail)))
  {
    NodeOkIff(cfg, keys, e, part.head);
    var made := CreateNode(cfg, keys, e, part.head);
    if made.Ok? { TailOkIff(cfg, keys, made.value.1, made.value.0, part.tail); }
  }

  lemma {:induction false} PartsOkIff(cfg: Config, keys: Keys, e: Emit, parts: seq<Part>)
    ensures var r := EmitParts(cfg, keys, e, parts);
      && (r.Ok? <==> PartsOk(cfg, keys, e.vars.Keys, parts))
      && (r.Ok? ==> r.value.vars.Keys == e.vars.Keys + PartsNames(parts))
    decreases |parts|
  {
    if parts != [] {
      PartOkIff(cfg, keys, e, parts[0]);
      var r := EmitPart(cfg, keys, e, parts[0]);
      if r.Ok? { PartsOkIff(cfg, keys, r.value, parts[1..]); }
    }
  }

  /** The CREATE part of a statement is accepted exactly by its patterns and what is bound before it. */
  lemma {:induction false} ClausesOkIff(cfg: Config, keys: Keys, e: Emit, clauses: seq<Clause>)
    ensures EmitClauses(cfg, keys, e, clauses).Ok? <==> ClausesOk(cfg, keys, e.vars.Keys, clauses)
    decreases |clauses|
  {
    if clauses != [] && clauses[0].Create? {
      PartsOkIff(cfg, keys, e, clauses[0].parts);
      var r := EmitParts(cfg, keys, e, clauses[0].parts);
      if r.Ok? { ClausesOkIff(cfg, keys, r.value, clauses[1..]); }
    }
  }

  // ---------------------------------------------------------------------------
  // Statements
  // ---------------------------------------------------------------------------

  /** A matched node must have a variable, a known label and a scalar for each of its keys. */
  ghost predicate BindsOk(keys: Keys, node: NodePattern) {
    && HasMatchShape(node) && node.name.Some? && node.kinds[0] in keys
    && KeysScalar(keys[node.kinds[0]], node.props.value)
  }

  lemma {:induction false} BindsIff(cfg: Config, keys: Keys, b: Bound, nodes: seq<NodePattern>)
    ensures BindAll(cfg, keys, b, nodes).Ok? <==> forall i | 0 <= i < |nodes| :: BindsOk(keys, nodes[i])
    decreases |nodes|
  {
    if nodes != [] {
      var node := nodes[0];
      if HasMatchShape(node) && node.kinds[0] in keys { KeyValuesSomeIff(keys[node.kinds[0]], node.props.value); }
      assert BindOne(cfg, keys, b, node).Ok? <==> BindsOk(keys, node);
      assert forall i | 0 < i < |nodes| :: nodes[i] == nodes[1..][i - 1];
      if BindOne(cfg, keys, b, node).Ok? { BindsIff(cfg, keys, BindOne(cfg, keys, b, node).value, nodes[1..]); }
    }
  }

  /** What a statement must be: CREATE with fit patterns, or MATCH whose links are fit or left out. */
  ghost predicate StatementOk(cfg: Config, keys: Keys, hash: Bytes -> nat, created: set<Bytes>, s: Statement) {
    match s
    case CreateOnly(writes) => ClausesOk(cfg, keys, {}, writes)
    case Match(nodes, writes) =>
      && (forall i | 0 <= i < |nodes| :: BindsOk(keys, nodes[i]))
      && var b := BindAll(cfg, keys, UNBOUND, nodes);
         (b.Ok? && AllKnown(hash, created, b.value.ids) ==> ClausesOk(cfg, keys, b.value.vars.Keys, writes))
    case _ => false
  }

  lemma StatementOkIff(cfg: Config, keys: Keys, hash: Bytes -> nat, created: set<Bytes>, s: Statement)
    ensures NodesOf(cfg, keys, FRESH, s).Ok? && EdgesAlone(cfg, keys, hash, created, s).Ok? <==>
      StatementOk(cfg, keys, hash, created, s)
  {
    match s
    case CreateOnly(writes) =>
      assert FRESH.(vars := map[]).vars.Keys == {};
      ClausesOkIff(cfg, keys, FRESH.(vars := map[]), writes);
    case Match(nodes, writes) =>
      BindsIff(cfg, keys, UNBOUND, nodes);
      var b := BindAll(cfg, keys, UNBOUND, nodes);
      if b.Ok? { ClausesOkIff(cfg, keys, Emit(b.value.vars, created, 0, []), writes); }
    case _ =>
  }

  /**
   * A script whose created nodes carry their keys and whose MATCH statements only link is imported
   * exactly when its keys can be learned and each of its statements is fit, given the nodes that its
   * CREATE statements make.
   */
  lemma ImportAcceptsIff(cfg: Config, hash: Bytes -> nat, ss: seq<Statement>)
    requires Learn(map[], Sightings(ss)).Ok? ==> AllKeyed(cfg, Learn(map[], Sightings(ss)).value, ss)
    ensures Import(cfg, hash, ss).Ok? <==>
      && Learnable(ss)
      && var keys := Learn(map[], Sightings(ss));
         keys.Ok? && forall s | s in ss ::
           StatementOk(cfg, keys.value, hash, Total(ss, NodesShare(cfg, keys.value)).created, s)
  {
    LearnsIff(ss);
    if Learn(map[], Sightings(ss)).Ok? {
      var keys := Learn(map[], Sightings(ss)).value;
      var made := Total(ss, NodesShare(cfg, keys)).created;
      NodesPassTotal(cfg, keys, FRESH, ss);
      forall s | s in ss ensures NodesOf(cfg, keys, FRESH, s).Ok? && EdgesAlone(cfg, keys, hash, made, s).Ok? <==>
          StatementOk(cfg, keys, hash, made, s)
      {
        StatementOkIff(cfg, keys, hash, made, s);
      }
      var nodes := NodesPass(cfg, keys, FRESH, ss);
      if nodes.Ok? {
        assert nodes.value.created == made;
        EdgesPassTotal(cfg, keys, hash, Progress(nodes.value.(vars := map[]), 0), ss);
      }
    }
  }
}
