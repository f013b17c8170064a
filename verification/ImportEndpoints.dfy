/**
 * Which emitted edges dangle: both ends of an edge are nodes the import created, except where the
 * hash of a matched id is taken by another node.
 */
module ImportEndpoints {
  import opened Ledger
  import opened Octets
  import opened Identity
  import opened CypherImport
  import opened ImportOrder

  ghost predicate EndsIn(created: set<Bytes>, o: Obj) {
    o.EdgeObj? ==> o.from in created && o.to in created
  }

  /** Bound variables and edge ends are created nodes, or among `others`. */
  ghost predicate Closed(others: set<Bytes>, e: Emit) {
    && (forall v | v in e.vars :: e.vars[v] in others + e.created)
    && (forall i | 0 <= i < |e.out| :: EndsIn(others + e.created, e.out[i]))
  }

  lemma NodeClosed(others: set<Bytes>, cfg: Config, keys: Keys, e: Emit, node: NodePattern)
    requires Closed(others, e) && CreateNode(cfg, keys, e, node).Ok?
    ensures var (id, e') := CreateNode(cfg, keys, e, node).value;
      Closed(others, e') && id in others + e'.created && e.created <= e'.created
  {
    var (id, e') := CreateNode(cfg, keys, e, node).value;
    if !IsReference(e, node) {
      forall i | 0 <= i < |e'.out| ensures EndsIn(others + e'.created, e'.out[i]) {
        if i < |e.out| { assert EndsIn(others + e.created, e.out[i]); }
      }
    }
  }

  lemma EdgeClosed(others: set<Bytes>, e: Emit, edge: Obj)
    requires Closed(others, e) && EndsIn(others + e.created, edge)
    ensures Closed(others, e.(out := e.out + [edge]))
  {
  }

  lemma {:induction false} TailClosed(others: set<Bytes>, cfg: Config, keys: Keys, e: Emit, subject: Bytes,
                                      tail: seq<(RelPattern, NodePattern)>)
    requires Closed(others, e) && subject in others + e.created
    ensures var r := EmitTail(cfg, keys, e, subject, tail);
      r.Ok? ==> Closed(others, r.value) && e.created <= r.value.created
    decreases |tail|
  {
    if tail != [] && EmitTail(cfg, keys, e, subject, tail).Ok? {
      var (rel, node) := tail[0];
      NodeClosed(others, cfg, keys, e, node);
      var (target, e') := CreateNode(cfg, keys, e, node).value;
      var edge := if rel.dir.Outgoing? then EdgeObject(cfg, rel, subject, target)
                  else EdgeObject(cfg, rel, target, subject);
      EdgeClosed(others, e', edge.value);
      TailClosed(others, cfg, keys, e'.(out := e'.out + [edge.value]), target, tail[1..]);
    }
  }

  lemma {:induction false} PartsClosed(others: set<Bytes>, cfg: Config, keys: Keys, e: Emit, parts: seq<Part>)
    requires Closed(others, e)
    ensures var r := EmitParts(cfg, keys, e, parts); r.Ok? ==> Closed(others, r.value) && e.created <= r.value.created
    decreases |parts|
  {
    if parts != [] && EmitParts(cfg, keys, e, parts).Ok? {
      NodeClosed(others, cfg, keys, e, parts[0].head);
      var (head, e') := CreateNode(cfg, keys, e, parts[0].head).value;
      TailClosed(others, cfg, keys, e', head, parts[0].tail);
      PartsClosed(others, cfg, keys, EmitPart(cfg, keys, e, parts[0]).value, parts[1..]);
    }
  }

  lemma {:induction false} ClausesClosed(others: set<Bytes>, cfg: Config, keys: Keys, e: Emit, clauses: seq<Clause>)
    requires Closed(others, e)
    ensures var r := EmitClauses(cfg, keys, e, clauses);
      r.Ok? ==> Closed(others, r.value) && e.created <= r.value.created
    decreases |clauses|
  {
    if clauses != [] && EmitClauses(cfg, keys, e, clauses).Ok? {
      PartsClosed(others, cfg, keys, e, clauses[0].parts);
      ClausesClosed(others, cfg, keys, EmitParts(cfg, keys, e, clauses[0].parts).value, clauses[1..]);
    }
  }

  lemma {:induction false} NodesPassClosed(others: set<Bytes>, cfg: Config, keys: Keys, e: Emit, ss: seq<Statement>)
    requires Closed(others, e)
    ensures var r := NodesPass(cfg, keys, e, ss); r.Ok? ==> Closed(others, r.value)
    decreases |ss|
  {
    if ss != [] && NodesPass(cfg, keys, e, ss).Ok? {
      if ss[0].CreateOnly? { ClausesClosed(others, cfg, keys, e.(vars := map[]), ss[0].writes); }
      NodesPassClosed(others, cfg, keys, NodesOf(cfg, keys, e, ss[0]).value, ss[1..]);
    }
  }

  // ---------------------------------------------------------------------------
  // Matched nodes
  // ---------------------------------------------------------------------------

  ghost predicate BoundToIds(b: Bound) {
    forall v | v in b.vars :: b.vars[v] in b.ids
  }

  lemma {:induction false} BoundIds(cfg: Config, keys: Keys, b: Bound, nodes: seq<NodePattern>)
    requires BoundToIds(b)
    ensures var r := BindAll(cfg, keys, b, nodes); r.Ok? ==> BoundToIds(r.value)
    decreases |nodes|
  {
    if nodes != [] && BindOne(cfg, keys, b, nodes[0]).Ok? {
      var b' := BindOne(cfg, keys, b, nodes[0]).value;
      assert b'.ids[|b.ids|] == b'.vars[nodes[0].name.value];
      BoundIds(cfg, keys, b', nodes[1..]);
    }
  }

  /** An id that was not created passes for one that was: their hashes are the same. */
  predicate Collides(hash: Bytes -> nat, created: set<Bytes>, id: Bytes) {
    id !in created && Known(hash, created, id)
  }

  ghost predicate NoneCollides(cfg: Config, keys: Keys, hash: Bytes -> nat, created: set<Bytes>, s: Statement) {
    s.Match? && BindAll(cfg, keys, UNBOUND, s.nodes).Ok? ==>
      forall id | id in BindAll(cfg, keys, UNBOUND, s.nodes).value.ids :: !Collides(hash, created, id)
  }

  lemma ClausesGrow(cfg: Config, keys: Keys, e: Emit, clauses: seq<Clause>)
    ensures var r := EmitClauses(cfg, keys, e, clauses); r.Ok? ==> e.created <= r.value.created
  {
    var others := e.vars.Values + Ends(e.out);
    forall i | 0 <= i < |e.out| ensures EndsIn(others + e.created, e.out[i]) {
      EndsHas(e.out, i);
    }
    ClausesClosed(others, cfg, keys, e, clauses);
  }

  lemma {:induction false} EdgesPassGrows(cfg: Config, keys: Keys, hash: Bytes -> nat, g: Progress, ss: seq<Statement>)
    ensures var r := EdgesPass(cfg, keys, hash, g, ss); r.Ok? ==> g.emit.created <= r.value.emit.created
    decreases |ss|
  {
    if ss != [] && EdgesPass(cfg, keys, hash, g, ss).Ok? {
      EdgesOfGrows(cfg, keys, hash, g, ss[0]);
      EdgesPassGrows(cfg, keys, hash, EdgesOf(cfg, keys, hash, g, ss[0]).value, ss[1..]);
    }
  }

  lemma EdgesOfGrows(cfg: Config, keys: Keys, hash: Bytes -> nat, g: Progress, s: Statement)
    ensures var r := EdgesOf(cfg, keys, hash, g, s); r.Ok? ==> g.emit.created <= r.value.emit.created
  {
    if s.Match? {
      var b := BindAll(cfg, keys, UNBOUND, s.nodes);
      if b.Ok? { ClausesGrow(cfg, keys, g.emit.(vars := b.value.vars), s.writes); }
    }
  }

  /** Known among some nodes and colliding with none of more is created. */
  lemma KnownIsCreated(hash: Bytes -> nat, some: set<Bytes>, all: set<Bytes>, id: Bytes)
    requires some <= all && Known(hash, some, id) && !Collides(hash, all, id)
    ensures id in all
  {
    var c :| c in some && hash(c) == hash(id);
    assert c in all;
  }

  lemma EdgesOfClosed(all: set<Bytes>, cfg: Config, keys: Keys, hash: Bytes -> nat, g: Progress, s: Statement)
    requires Closed(all, g.emit) && g.emit.created <= all && NoneCollides(cfg, keys, hash, all, s)
    ensures var r := EdgesOf(cfg, keys, hash, g, s); r.Ok? ==> Closed(all, r.value.emit)
  {
    if s.Match? {
      var b := BindAll(cfg, keys, UNBOUND, s.nodes);
      if b.Ok? && AllKnown(hash, g.emit.created, b.value.ids) {
        BoundIds(cfg, keys, UNBOUND, s.nodes);
        forall v | v in b.value.vars ensures b.value.vars[v] in all {
          KnownIsCreated(hash, g.emit.created, all, b.value.vars[v]);
        }
        ClausesClosed(all, cfg, keys, g.emit.(vars := b.value.vars), s.writes);
      }
    }
  }

  lemma {:induction false} EdgesPassClosed(all: set<Bytes>, cfg: Config, keys: Keys, hash: Bytes -> nat, g: Progress,
                                           ss: seq<Statement>)
    requires Closed(all, g.emit) && forall s | s in ss :: NoneCollides(cfg, keys, hash, all, s)
    requires EdgesPass(cfg, keys, hash, g, ss).Ok? && EdgesPass(cfg, keys, hash, g, ss).value.emit.created <= all
    ensures Closed(all, EdgesPass(cfg, keys, hash, g, ss).value.emit)
    decreases |ss|
  {
    if ss != [] {
      InCons(ss);
      EdgesPassGrows(cfg, keys, hash, g, ss);
      EdgesOfClosed(all, cfg, keys, hash, g, ss[0]);
      EdgesPassClosed(all, cfg, keys, hash, EdgesOf(cfg, keys, hash, g, ss[0]).value, ss[1..]);
    }
  }

  /** Both ends of every emitted edge are created nodes. */
  ghost predicate NoneDangles(e: Emit) {
    forall i | 0 <= i < |e.out| :: EndsIn(e.created, e.out[i])
  }

  /**
   * Every edge of an import, from either pass, runs between created nodes, unless a matched id that
   * the import never creates has the hash of one that it does.
   */
  lemma NoEdgeDangles(cfg: Config, hash: Bytes -> nat, ss: seq<Statement>)
    requires Import(cfg, hash, ss).Ok?
    requires forall s | s in ss ::
      NoneCollides(cfg, Learn(map[], Sightings(ss)).value, hash, Import(cfg, hash, ss).value.emit.created, s)
    ensures NoneDangles(Import(cfg, hash, ss).value.emit)
  {
    var keys, e := Learn(map[], Sightings(ss)).value, Import(cfg, hash, ss).value.emit;
    var start := NodesPass(cfg, keys, FRESH, ss).value.(vars := map[]);
    NodesPassClosed({}, cfg, keys, FRESH, ss);
    ClosedMore(start, e.created);
    EdgesPassClosed(e.created, cfg, keys, hash, Progress(start, 0), ss);
    assert e.created + e.created == e.created;
  }

  lemma ClosedMore(e: Emit, more: set<Bytes>)
    requires Closed({}, e)
    ensures Closed(more, e)
  {
    forall i | 0 <= i < |e.out| ensures EndsIn(more + e.created, e.out[i]) {
      assert EndsIn({} + e.created, e.out[i]);
    }
  }

  // ---------------------------------------------------------------------------
  // The ends of the edges that pass 3 emits
  // ---------------------------------------------------------------------------

  function ObjEnds(o: Obj): set<Bytes> {
    if o.EdgeObj? then {o.from, o.to} else {}
  }

  function Ends(out: seq<Obj>): set<Bytes> {
    if out == [] then {} else Ends(out[..|out| - 1]) + ObjEnds(out[|out| - 1])
  }

  lemma EndsSnoc(out: seq<Obj>, o: Obj)
    ensures Ends(out + [o]) == Ends(out) + ObjEnds(o)
  {
    assert (out + [o])[..|out|] == out;
  }

  lemma {:induction false} EndsHas(out: seq<Obj>, i: nat)
    requires i < |out|
    ensures ObjEnds(out[i]) <= Ends(out)
  {
    if i < |out| - 1 { EndsHas(out[..|out| - 1], i); }
  }

  lemma {:induction false} EndsIff(created: set<Bytes>, out: seq<Obj>)
    ensures Ends(out) <= created <==> forall i | 0 <= i < |out| :: EndsIn(created, out[i])
  {
    if out != [] {
      var front, last := out[..|out| - 1], out[|out| - 1];
      EndsIff(created, front);
      assert EndsIn(created, last) <==> ObjEnds(last) <= created;
      assert forall i | 0 <= i < |front| :: front[i] == out[i];
    }
  }

  /** The variables at the ends of a statement's relationships. */
  function PartEnds(part: Part): set<string> {
    if part.tail == [] then {} else NameOf(part.head) + TailNames(part.tail)
  }

  function PartsEnds(parts: seq<Part>): set<string> {
    if parts == [] then {} else PartEnds(parts[0]) + PartsEnds(parts[1..])
  }

  function ClausesEnds(clauses: seq<Clause>): set<string> {
    if clauses == [] then {}
    else (if clauses[0].Create? then PartsEnds(clauses[0].parts) else {}) + ClausesEnds(clauses[1..])
  }

  /** What those variables stand for. */
  function Targets(vars: map<string, Bytes>, names: set<string>): set<Bytes> {
    set v | v in names && v in vars :: vars[v]
  }

  lemma TargetsBoth(vars: map<string, Bytes>, a: set<string>, b: set<string>)
    ensures Targets(vars, a + b) == Targets(vars, a) + Targets(vars, b)
  {
  }

  lemma {:induction false} TailEnds(cfg: Config, keys: Keys, e: Emit, subject: Bytes, tail: seq<(RelPattern,
                                    NodePattern)>)
    requires forall i | 0 <= i < |tail| :: IsBareRef(e.vars.Keys, tail[i].1)
    requires EmitTail(cfg, keys, e, subject, tail).Ok?
    ensures Ends(EmitTail(cfg, keys, e, subject, tail).value.out) ==
      Ends(e.out) + (if tail == [] then {} else {subject} + Targets(e.vars, TailNames(tail)))
    decreases |tail|
  {
    if tail != [] {
      var (rel, node) := tail[0];
      assert IsBareRef(e.vars.Keys, node);
      var target := e.vars[node.name.value];
      var edge := if rel.dir.Outgoing? then EdgeObject(cfg, rel, subject, target)
                  else EdgeObject(cfg, rel, target, subject);
      EndsSnoc(e.out, edge.value);
      assert ObjEnds(edge.value) == {subject, target};
      assert Targets(e.vars, NameOf(node)) == {target};
      TargetsBoth(e.vars, NameOf(node), TailNames(tail[1..]));
      TailEnds(cfg, keys, e.(out := e.out + [edge.value]), target, tail[1..]);
    }
  }

  lemma PartEndsEmitted(cfg: Config, keys: Keys, e: Emit, part: Part)
    requires PartLinks(e.vars.Keys, part) && EmitPart(cfg, keys, e, part).Ok?
    ensures Ends(EmitPart(cfg, keys, e, part).value.out) == Ends(e.out) + Targets(e.vars, PartEnds(part))
  {
    var subject := e.vars[part.head.name.value];
    TailEnds(cfg, keys, e, subject, part.tail);
    assert Targets(e.vars, NameOf(part.head)) == {subject};
    TargetsBoth(e.vars, NameOf(part.head), TailNames(part.tail));
  }

  lemma {:induction false} PartsEndsEmitted(cfg: Config, keys: Keys, e: Emit, parts: seq<Part>)
    requires forall i | 0 <= i < |parts| :: PartLinks(e.vars.Keys, parts[i])
    requires EmitParts(cfg, keys, e, parts).Ok?
    ensures Ends(EmitParts(cfg, keys, e, parts).value.out) == Ends(e.out) + Targets(e.vars, PartsEnds(parts))
    decreases |parts|
  {
    if parts != [] {
      assert PartLinks(e.vars.Keys, parts[0]);
      PartEndsEmitted(cfg, keys, e, parts[0]);
      TailLinks(cfg, keys, e, e.vars[parts[0].head.name.value], parts[0].tail);
      TargetsBoth(e.vars, PartEnds(parts[0]), PartsEnds(parts[1..]));
      PartsEndsEmitted(cfg, keys, EmitPart(cfg, keys, e, parts[0]).value, parts[1..]);
    }
  }

  lemma {:induction false} ClausesEndsEmitted(cfg: Config, keys: Keys, e: Emit, clauses: seq<Clause>)
    requires LinksOnly(e.vars.Keys, clauses) && EmitClauses(cfg, keys, e, clauses).Ok?
    ensures Ends(EmitClauses(cfg, keys, e, clauses).value.out) == Ends(e.out) + Targets(e.vars, ClausesEnds(clauses))
    decreases |clauses|
  {
    if clauses != [] {
      assert ClauseLinks(e.vars.Keys, clauses[0]);
      PartsEndsEmitted(cfg, keys, e, clauses[0].parts);
      PartsLinks(cfg, keys, e, clauses[0].parts);
      TargetsBoth(e.vars, PartsEnds(clauses[0].parts), ClausesEnds(clauses[1..]));
      assert forall i | 0 <= i < |clauses[1..]| :: clauses[1..][i] == clauses[i + 1];
      ClausesEndsEmitted(cfg, keys, EmitParts(cfg, keys, e, clauses[0].parts).value, clauses[1..]);
    }
  }

  /** The statement links a matched node that was not created but passes for one that was. */
  ghost predicate LinksACollision(cfg: Config, keys: Keys, hash: Bytes -> nat, created: set<Bytes>, s: Statement) {
    && s.Match? && BindAll(cfg, keys, UNBOUND, s.nodes).Ok?
    && var b := BindAll(cfg, keys, UNBOUND, s.nodes).value;
       && AllKnown(hash, created, b.ids)
       && exists id | id in Targets(b.vars, ClausesEnds(s.writes)) :: Collides(hash, created, id)
  }

  lemma StatementEndsIff(cfg: Config, keys: Keys, hash: Bytes -> nat, g: Progress, s: Statement)
    requires StatementKeyed(cfg, keys, s) && EdgesOf(cfg, keys, hash, g, s).Ok?
    ensures var r := EdgesOf(cfg, keys, hash, g, s).value;
      Ends(r.emit.out) <= g.emit.created <==>
        Ends(g.emit.out) <= g.emit.created && !LinksACollision(cfg, keys, hash, g.emit.created, s)
  {
    if s.Match? {
      var b := BindAll(cfg, keys, UNBOUND, s.nodes).value;
      if AllKnown(hash, g.emit.created, b.ids) {
        ClausesEndsEmitted(cfg, keys, g.emit.(vars := b.vars), s.writes);
        BoundIds(cfg, keys, UNBOUND, s.nodes);
        var ends := Targets(b.vars, ClausesEnds(s.writes));
        forall id | id in ends ensures id in g.emit.created <==> !Collides(hash, g.emit.created, id) {
          assert id in b.ids;
        }
      }
    }
  }

  lemma {:induction false} EdgesPassEndsIff(cfg: Config, keys: Keys, hash: Bytes -> nat, g: Progress,
                                            ss: seq<Statement>)
    requires AllKeyed(cfg, keys, ss) && EdgesPass(cfg, keys, hash, g, ss).Ok?
    ensures var r := EdgesPass(cfg, keys, hash, g, ss).value;
      Ends(r.emit.out) <= g.emit.created <==>
        && Ends(g.emit.out) <= g.emit.created
        && forall s | s in ss :: !LinksACollision(cfg, keys, hash, g.emit.created, s)
    decreases |ss|
  {
    if ss != [] {
      InCons(ss);
      EdgesStep(cfg, keys, hash, g, ss[0]);
      StatementEndsIff(cfg, keys, hash, g, ss[0]);
      EdgesPassEndsIff(cfg, keys, hash, EdgesOf(cfg, keys, hash, g, ss[0]).value, ss[1..]);
    }
  }

  /**
   * When pass 3 only links what it matched: some edge dangles exactly when a statement that is not
   * skipped links a matched id that the import never creates, though a created one has its hash.
   */
  lemma NoEdgeDanglesIff(cfg: Config, hash: Bytes -> nat, ss: seq<Statement>)
    requires Import(cfg, hash, ss).Ok? && AllKeyed(cfg, Learn(map[], Sightings(ss)).value, ss)
    ensures var keys, e := Learn(map[], Sightings(ss)).value, Import(cfg, hash, ss).value.emit;
      NoneDangles(e) <==> forall s | s in ss :: !LinksACollision(cfg, keys, hash, e.created, s)
  {
    var keys, e := Learn(map[], Sightings(ss)).value, Import(cfg, hash, ss).value.emit;
    var start := NodesPass(cfg, keys, FRESH, ss).value.(vars := map[]);
    NodesPassClosed({}, cfg, keys, FRESH, ss);
    assert {} + start.created == start.created;
    EndsIff(start.created, start.out);
    EdgesPassCreated(cfg, keys, hash, Progress(start, 0), ss);
    EdgesPassEndsIff(cfg, keys, hash, Progress(start, 0), ss);
    EndsIff(e.created, e.out);
  }

  // ---------------------------------------------------------------------------
  // A path is emitted as it is written
  // ---------------------------------------------------------------------------

  /**
   * The edge runs between the two nodes the way the arrow points, with the written type, and with
   * the written properties but for nulls if they are kept as annotations.
   */
  ghost predicate Joins(cfg: Config, rel: RelPattern, a: Bytes, b: Bytes, o: Obj) {
    && o.EdgeObj? && |rel.types| == 1 && o.kind == Prefix(cfg.vocab) + rel.types[0]
    && (forall name, value :: (name, value) in o.props <==>
          cfg.policy.Annotated? && HasEntry(cfg, rel.props, name, value))
    && match rel.dir
       case Outgoing => o.from == a && o.to == b
       case Incoming => o.from == b && o.to == a
       case Either => false
  }

  lemma EdgeHas(cfg: Config, rel: RelPattern, o: Obj)
    requires o.EdgeObj? && o.props == if cfg.policy.Annotated? then Written(cfg, rel.props) else []
    ensures forall name, value :: (name, value) in o.props <==>
      cfg.policy.Annotated? && HasEntry(cfg, rel.props, name, value)
  {
    forall name, value ensures (name, value) in Written(cfg, rel.props) <==> HasEntry(cfg, rel.props, name, value) {
      WrittenHas(cfg, rel.props, name, value);
    }
  }

  function EdgesIn(out: seq<Obj>): seq<Obj> {
    if out == [] then []
    else EdgesIn(out[..|out| - 1]) + if out[|out| - 1].EdgeObj? then [out[|out| - 1]] else []
  }

  /** Two variables bound alike where the first map has them. */
  ghost predicate Extends(a: map<string, Bytes>, b: map<string, Bytes>) {
    forall v | v in a :: v in b && b[v] == a[v]
  }

  /** A node pattern stands for one id: bound if it has a variable, kept if it was bound; no edge is emitted. */
  lemma NodeStandsFor(cfg: Config, keys: Keys, e: Emit, node: NodePattern)
    requires CreateNode(cfg, keys, e, node).Ok?
    ensures var (id, e') := CreateNode(cfg, keys, e, node).value;
      && Extends(e.vars, e'.vars)
      && (node.name.Some? ==> node.name.value in e'.vars && e'.vars[node.name.value] == id)
      && EdgesIn(e'.out) == EdgesIn(e.out)
  {
    var (id, e') := CreateNode(cfg, keys, e, node).value;
    if !IsReference(e, node) {
      var objs := NodeObjects(cfg, node, id);
      if objs == [] {
        assert e.out + objs == e.out;
      } else {
        assert e'.out[..|e'.out| - 1] == e.out;
      }
    }
  }

  lemma EdgesSnoc(out: seq<Obj>, edge: Obj)
    requires edge.EdgeObj?
    ensures EdgesIn(out + [edge]) == EdgesIn(out) + [edge]
  {
    assert (out + [edge])[..|out|] == out;
  }

  /** Relationship `i` of the path joins its two neighbours. */
  ghost predicate JoinedAt(cfg: Config, tail: seq<(RelPattern, NodePattern)>, ids: seq<Bytes>, edges: seq<Obj>, i: nat)
    requires i < |tail| == |edges| && |ids| == |tail| + 1
  {
    Joins(cfg, tail[i].0, ids[i], ids[i + 1], edges[i])
  }

  /** If the node after relationship `i` has a variable, it is bound to that node's id. */
  ghost predicate NamedAt(tail: seq<(RelPattern, NodePattern)>, ids: seq<Bytes>, vars: map<string, Bytes>, i: nat)
    requires i < |tail| && |ids| == |tail| + 1
  {
    var name := tail[i].1.name;
    name.Some? ==> name.value in vars && vars[name.value] == ids[i + 1]
  }

  ghost predicate IsPathOf(cfg: Config, tail: seq<(RelPattern, NodePattern)>, ids: seq<Bytes>, edges: seq<Obj>,
                           vars: map<string, Bytes>)
  {
    && |edges| == |tail| && |ids| == |tail| + 1
    && (forall i | 0 <= i < |tail| :: JoinedAt(cfg, tail, ids, edges, i))
    && (forall i | 0 <= i < |tail| :: NamedAt(tail, ids, vars, i))
  }

  lemma PathCons(cfg: Config, tail: seq<(RelPattern, NodePattern)>, subject: Bytes, edge: Obj, ids: seq<Bytes>,
                 edges: seq<Obj>, vars: map<string, Bytes>)
    requires tail != [] && IsPathOf(cfg, tail[1..], ids, edges, vars)
    requires Joins(cfg, tail[0].0, subject, ids[0], edge)
    requires tail[0].1.name.Some? ==> tail[0].1.name.value in vars && vars[tail[0].1.name.value] == ids[0]
    ensures IsPathOf(cfg, tail, [subject] + ids, [edge] + edges, vars)
  {
    var rest := tail[1..];
    forall i | 0 <= i < |tail|
      ensures JoinedAt(cfg, tail, [subject] + ids, [edge] + edges, i) && NamedAt(tail, [subject] + ids, vars, i)
    {
      if i > 0 {
        assert JoinedAt(cfg, rest, ids, edges, i - 1) && NamedAt(rest, ids, vars, i - 1);
        assert rest[i - 1] == tail[i];
      }
    }
  }

  /**
   * A path (a)-[r1]->(b)<-[r2]-(c)… emits one edge per relationship, in order, each between the
   * ids of its two neighbours in the direction written; named nodes keep those ids as bindings.
   */
  lemma {:induction false} PathEdges(cfg: Config, keys: Keys, e: Emit, subject: Bytes,
                                     tail: seq<(RelPattern, NodePattern)>)
    returns (ids: seq<Bytes>, edges: seq<Obj>)
    requires EmitTail(cfg, keys, e, subject, tail).Ok?
    ensures var r := EmitTail(cfg, keys, e, subject, tail).value;
      && IsPathOf(cfg, tail, ids, edges, r.vars) && ids[0] == subject
      && EdgesIn(r.out) == EdgesIn(e.out) + edges && Extends(e.vars, r.vars)
    decreases |tail|
  {
    if tail == [] {
      ids, edges := [subject], [];
      assert EdgesIn(e.out) + [] == EdgesIn(e.out);
    } else {
      var (rel, node) := tail[0];
      NodeStandsFor(cfg, keys, e, node);
      var (target, e') := CreateNode(cfg, keys, e, node).value;
      var edge := if rel.dir.Outgoing? then EdgeObject(cfg, rel, subject, target)
                  else EdgeObject(cfg, rel, target, subject);
      EdgesSnoc(e'.out, edge.value);
      EdgeHas(cfg, rel, edge.value);
      var next := e'.(out := e'.out + [edge.value]);
      var ids', edges' := PathEdges(cfg, keys, next, target, tail[1..]);
      var r := EmitTail(cfg, keys, next, target, tail[1..]).value;
      ids, edges := [subject] + ids', [edge.value] + edges';
      PathCons(cfg, tail, subject, edge.value, ids', edges', r.vars);
      ConsEdges(EdgesIn(e.out), edge.value, edges');
    }
  }

  lemma ConsEdges(a: seq<Obj>, x: Obj, b: seq<Obj>)
    ensures (a + [x]) + b == a + ([x] + b)
  {
  }
}
