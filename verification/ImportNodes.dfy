/**
 * Every node pattern an import resolves, in order, with the id it gets: unkeyed nodes are numbered
 * through both passes and get distinct ids, keyed ones the id a MATCH of their keys binds, and each
 * node with a label or a property map is written once, as it is described.
 */
module ImportNodes {
  import opened Ledger
  import opened Octets
  import opened Identity
  import opened CypherImport
  import opened ImportOrder

  // ---------------------------------------------------------------------------
  // Anonymous ids
  // ---------------------------------------------------------------------------

  /** The number a decimal text stands for. */
  function NumberOf(text: Bytes): int {
    if text == [] then 0 else 10 * NumberOf(text[..|text| - 1]) + (text[|text| - 1] as int - 0x30)
  }

  lemma {:induction false} DecimalReads(n: nat)
    ensures NumberOf(Decimal(n)) == n && SLASH !in Decimal(n)
  {
    if n < 10 {
      assert Decimal(n)[..0] == [];
    } else {
      DecimalReads(n / 10);
      var front := Decimal(n / 10);
      assert Decimal(n)[..|front|] == front;
    }
  }

  function AnonTail(kind: Option<Name>, n: nat): Bytes {
    Segment(if kind.Some? then kind.value else NODE) + [SLASH] + (ANON + Decimal(n))
  }

  lemma AnonIsTail(cfg: Config, kind: Option<Name>, n: nat)
    ensures AnonId(cfg, kind, n) == Prefix(cfg.vocab) + AnonTail(kind, n)
  {
    var text := Segment(if kind.Some? then kind.value else NODE);
    assert text + [SLASH] + ANON + Decimal(n) == text + [SLASH] + (ANON + Decimal(n));
  }

  /** Different numbers give different ids, whatever the labels. */
  lemma AnonIdInjective(cfg: Config, k1: Option<Name>, n1: nat, k2: Option<Name>, n2: nat)
    requires AnonId(cfg, k1, n1) == AnonId(cfg, k2, n2)
    ensures n1 == n2
  {
    AnonIsTail(cfg, k1, n1);
    AnonIsTail(cfg, k2, n2);
    CancelBase(Prefix(cfg.vocab), AnonTail(k1, n1), AnonTail(k2, n2));
    DecimalReads(n1);
    DecimalReads(n2);
    LastSlash(Segment(if k1.Some? then k1.value else NODE), ANON + Decimal(n1),
              Segment(if k2.Some? then k2.value else NODE), ANON + Decimal(n2));
    CancelBase(ANON, Decimal(n1), Decimal(n2));
  }

  // ---------------------------------------------------------------------------
  // What an import visits
  // ---------------------------------------------------------------------------

  /** A node pattern of a CREATE, the id it stands for, and whether it is new and without keys. */
  datatype Visit = Visit(node: NodePattern, id: Bytes, made: bool, anonymous: bool)

  function VisitOf(keys: Keys, e: Emit, node: NodePattern, id: Bytes): Visit {
    var made := !(node.name.Some? && node.name.value in e.vars);
    Visit(node, id, made, made && !CarriesKeys(keys, node))
  }

  function TailVisits(cfg: Config, keys: Keys, e: Emit, subject: Bytes, tail: seq<(RelPattern,
                      NodePattern)>): seq<Visit>
    requires EmitTail(cfg, keys, e, subject, tail).Ok?
    decreases |tail|
  {
    if tail == [] then []
    else
      var (rel, node) := tail[0];
      var (target, e') := CreateNode(cfg, keys, e, node).value;
      var edge := if rel.dir.Outgoing? then EdgeObject(cfg, rel, subject, target)
                  else EdgeObject(cfg, rel, target, subject);
      [VisitOf(keys, e, node, target)] + TailVisits(cfg, keys, e'.(out := e'.out + [edge.value]), target, tail[1..])
  }

  function PartVisits(cfg: Config, keys: Keys, e: Emit, part: Part): seq<Visit>
    requires EmitPart(cfg, keys, e, part).Ok?
  {
    var (id, e') := CreateNode(cfg, keys, e, part.head).value;
    [VisitOf(keys, e, part.head, id)] + TailVisits(cfg, keys, e', id, part.tail)
  }

  function PartsVisits(cfg: Config, keys: Keys, e: Emit, parts: seq<Part>): seq<Visit>
    requires EmitParts(cfg, keys, e, parts).Ok?
    decreases |parts|
  {
    if parts == [] then []
    else PartVisits(cfg, keys, e, parts[0]) + PartsVisits(cfg, keys, EmitPart(cfg, keys, e, parts[0]).value, parts[1..])
  }

  function ClausesVisits(cfg: Config, keys: Keys, e: Emit, clauses: seq<Clause>): seq<Visit>
    requires EmitClauses(cfg, keys, e, clauses).Ok?
    decreases |clauses|
  {
    if clauses == [] then []
    else
      var parts := clauses[0].parts;
      PartsVisits(cfg, keys, e, parts)
      + ClausesVisits(cfg, keys, EmitParts(cfg, keys, e, parts).value, clauses[1..])
  }

  /** The visits of pass 2. */
  function NodesVisits(cfg: Config, keys: Keys, e: Emit, ss: seq<Statement>): seq<Visit>
    requires NodesPass(cfg, keys, e, ss).Ok?
    decreases |ss|
  {
    if ss == [] then []
    else
      (if ss[0].CreateOnly? then ClausesVisits(cfg, keys, e.(vars := map[]), ss[0].writes) else [])
      + NodesVisits(cfg, keys, NodesOf(cfg, keys, e, ss[0]).value, ss[1..])
  }

  /** The visits of one statement in pass 3; a skipped one visits nothing. */
  function EdgeVisits(cfg: Config, keys: Keys, hash: Bytes -> nat, g: Progress, s: Statement): seq<Visit>
    requires EdgesOf(cfg, keys, hash, g, s).Ok?
  {
    if !s.Match? then []
    else
      var b := BindAll(cfg, keys, UNBOUND, s.nodes).value;
      if !AllKnown(hash, g.emit.created, b.ids) then []
      else ClausesVisits(cfg, keys, g.emit.(vars := b.vars), s.writes)
  }

  function EdgesVisits(cfg: Config, keys: Keys, hash: Bytes -> nat, g: Progress, ss: seq<Statement>): seq<Visit>
    requires EdgesPass(cfg, keys, hash, g, ss).Ok?
    decreases |ss|
  {
    if ss == [] then []
    else
      EdgeVisits(cfg, keys, hash, g, ss[0])
      + EdgesVisits(cfg, keys, hash, EdgesOf(cfg, keys, hash, g, ss[0]).value, ss[1..])
  }

  /** Everything an import visits, pass 2 before pass 3. */
  function ImportVisits(cfg: Config, hash: Bytes -> nat, ss: seq<Statement>): seq<Visit>
    requires Import(cfg, hash, ss).Ok?
  {
    var keys := Learn(map[], Sightings(ss)).value;
    var nodes := NodesPass(cfg, keys, FRESH, ss).value;
    NodesVisits(cfg, keys, FRESH, ss) + EdgesVisits(cfg, keys, hash, Progress(nodes.(vars := map[]), 0), ss)
  }

  // ---------------------------------------------------------------------------
  // What visiting does
  // ---------------------------------------------------------------------------

  function Filter<T>(keep: T -> bool, vs: seq<T>): seq<T> {
    if vs == [] then [] else (if keep(vs[0]) then [vs[0]] else []) + Filter(keep, vs[1..])
  }

  function Anonymous(vs: seq<Visit>): seq<Visit> {
    Filter((v: Visit) => v.anonymous, vs)
  }

  /** The new nodes that have a label or a property map. */
  function Shown(vs: seq<Visit>): seq<Visit> {
    Filter((v: Visit) => v.made && (v.node.kinds != [] || v.node.props.Some?), vs)
  }

  function NodesIn(out: seq<Obj>): seq<Obj> {
    if out == [] then []
    else NodesIn(out[..|out| - 1]) + if out[|out| - 1].NodeObj? then [out[|out| - 1]] else []
  }

  lemma {:induction false} FilterAppend<T>(keep: T -> bool, a: seq<T>, b: seq<T>)
    ensures Filter(keep, a + b) == Filter(keep, a) + Filter(keep, b)
    decreases |a|
  {
    if a == [] {
      assert a + b == b;
    } else {
      FilterAppend(keep, a[1..], b);
      assert (a + b)[1..] == a[1..] + b;
    }
  }

  lemma FilterOne<T>(keep: T -> bool, v: T)
    ensures Filter(keep, [v]) == if keep(v) then [v] else []
  {
    assert [v][1..] == [];
  }

  function KindOf(node: NodePattern): Option<Name> {
    if node.kinds == [] then None else Some(node.kinds[0])
  }

  /** The `i`th unkeyed node after `n` others has number `n + i + 1`. */
  ghost predicate NumberedAt(cfg: Config, vs: seq<Visit>, n: nat, i: nat)
    requires i < |vs|
  {
    vs[i].id == AnonId(cfg, KindOf(vs[i].node), n + i + 1)
  }

  /** The object has the node's id, its labels, and its properties but for nulls. */
  ghost predicate Describes(cfg: Config, v: Visit, o: Obj) {
    && o.NodeObj? && o.id == v.id && |o.kinds| == |v.node.kinds|
    && (forall i | 0 <= i < |o.kinds| :: o.kinds[i] == Prefix(cfg.vocab) + v.node.kinds[i])
    && (forall name, value :: (name, value) in o.props <==>
          v.node.props.Some? && HasEntry(cfg, v.node.props.value, name, value))
  }

  ghost predicate DescribesAt(cfg: Config, vs: seq<Visit>, os: seq<Obj>, i: nat)
    requires i < |vs| && i < |os|
  {
    Describes(cfg, vs[i], os[i])
  }

  ghost predicate DescribesAll(cfg: Config, vs: seq<Visit>, os: seq<Obj>) {
    |os| == |vs| && forall i | 0 <= i < |vs| :: DescribesAt(cfg, vs, os, i)
  }

  /** A new node with keys has the id of its key values. */
  ghost predicate KeyedRight(cfg: Config, keys: Keys, v: Visit) {
    v.made && !v.anonymous ==>
      && CarriesKeys(keys, v.node)
      && var values := KeyValues(keys[v.node.kinds[0]], v.node.props.value);
         values.Some? && v.id == NodeId(cfg.vocab, v.node.kinds[0], values.value)
  }

  /** The visits lead from `e` to `e'`. */
  ghost predicate Leads(cfg: Config, keys: Keys, e: Emit, vs: seq<Visit>, e': Emit) {
    && e'.anon == e.anon + |Anonymous(vs)|
    && (forall i | 0 <= i < |Anonymous(vs)| :: NumberedAt(cfg, Anonymous(vs), e.anon, i))
    && (forall v | v in vs :: KeyedRight(cfg, keys, v))
    && Writes(cfg, Shown(vs), e.out, e'.out)
  }

  /** Since `out` the output gained objects that describe these visits, in order. */
  ghost predicate Writes(cfg: Config, vs: seq<Visit>, out: seq<Obj>, out': seq<Obj>) {
    && |NodesIn(out')| == |NodesIn(out)| + |vs| && NodesIn(out) <= NodesIn(out')
    && DescribesAll(cfg, vs, NodesIn(out')[|NodesIn(out)|..])
  }

  lemma WritesNothing(cfg: Config, out: seq<Obj>, out': seq<Obj>)
    requires NodesIn(out') == NodesIn(out)
    ensures Writes(cfg, [], out, out')
  {
  }

  lemma WritesOne(cfg: Config, v: Visit, out: seq<Obj>, o: Obj)
    requires Describes(cfg, v, o)
    ensures Writes(cfg, [v], out, out + [o])
  {
    NodesInSnoc(out, o);
    var os := NodesIn(out + [o])[|NodesIn(out)|..];
    assert os == [o] && DescribesAt(cfg, [v], os, 0);
  }

  lemma WritesBoth(cfg: Config, a: seq<Visit>, b: seq<Visit>, out: seq<Obj>, out1: seq<Obj>, out2: seq<Obj>)
    requires Writes(cfg, a, out, out1) && Writes(cfg, b, out1, out2)
    ensures Writes(cfg, a + b, out, out2)
  {
    var x, y := NodesIn(out1)[|NodesIn(out)|..], NodesIn(out2)[|NodesIn(out1)|..];
    DescribesBoth(cfg, a, x, b, y);
    assert NodesIn(out2)[|NodesIn(out)|..] == x + y;
  }

  lemma AnonymousOne(cfg: Config, v: Visit, n: nat)
    requires v.anonymous ==> v.id == AnonId(cfg, KindOf(v.node), n + 1)
    ensures |Anonymous([v])| == if v.anonymous then 1 else 0
    ensures forall i | 0 <= i < |Anonymous([v])| :: NumberedAt(cfg, Anonymous([v]), n, i)
  {
    FilterOne((v: Visit) => v.anonymous, v);
  }

  lemma LeadsNowhere(cfg: Config, keys: Keys, e: Emit, e': Emit)
    requires e'.anon == e.anon && NodesIn(e'.out) == NodesIn(e.out)
    ensures Leads(cfg, keys, e, [], e')
  {
    WritesNothing(cfg, e.out, e'.out);
  }

  lemma NumberedBoth(cfg: Config, a: seq<Visit>, b: seq<Visit>, n: nat, m: nat)
    requires m == n + |a| && (forall i | 0 <= i < |a| :: NumberedAt(cfg, a, n, i))
    requires forall i | 0 <= i < |b| :: NumberedAt(cfg, b, m, i)
    ensures forall i | 0 <= i < |a + b| :: NumberedAt(cfg, a + b, n, i)
  {
    forall i | 0 <= i < |a + b| ensures NumberedAt(cfg, a + b, n, i) {
      if i < |a| { assert NumberedAt(cfg, a, n, i); } else { assert NumberedAt(cfg, b, m, i - |a|); }
    }
  }

  lemma DescribesBoth(cfg: Config, a: seq<Visit>, x: seq<Obj>, b: seq<Visit>, y: seq<Obj>)
    requires DescribesAll(cfg, a, x) && DescribesAll(cfg, b, y)
    ensures DescribesAll(cfg, a + b, x + y)
  {
    forall i | 0 <= i < |a + b| ensures DescribesAt(cfg, a + b, x + y, i) {
      if i < |a| { assert DescribesAt(cfg, a, x, i); } else { assert DescribesAt(cfg, b, y, i - |a|); }
    }
  }

  lemma LeadsBoth(cfg: Config, keys: Keys, e: Emit, a: seq<Visit>, e1: Emit, b: seq<Visit>, e2: Emit)
    requires Leads(cfg, keys, e, a, e1) && Leads(cfg, keys, e1, b, e2)
    ensures Leads(cfg, keys, e, a + b, e2)
  {
    FilterAppend((v: Visit) => v.anonymous, a, b);
    FilterAppend((v: Visit) => v.made && (v.node.kinds != [] || v.node.props.Some?), a, b);
    NumberedBoth(cfg, Anonymous(a), Anonymous(b), e.anon, e1.anon);
    WritesBoth(cfg, Shown(a), Shown(b), e.out, e1.out, e2.out);
  }

  // ---------------------------------------------------------------------------
  // One node
  // ---------------------------------------------------------------------------

  lemma ObjectDescribes(cfg: Config, v: Visit)
    requires v.node.kinds != [] || v.node.props.Some?
    ensures |NodeObjects(cfg, v.node, v.id)| == 1 && Describes(cfg, v, NodeObjects(cfg, v.node, v.id)[0])
  {
    var o := NodeObjects(cfg, v.node, v.id)[0];
    if v.node.props.Some? {
      forall name, value ensures (name, value) in o.props <==> HasEntry(cfg, v.node.props.value, name, value) {
        WrittenHas(cfg, v.node.props.value, name, value);
      }
    }
  }

  lemma NodesInSnoc(out: seq<Obj>, o: Obj)
    ensures NodesIn(out + [o]) == NodesIn(out) + if o.NodeObj? then [o] else []
  {
    assert (out + [o])[..|out|] == out;
  }

  /** What is written for one visit. */
  lemma NodeWritten(cfg: Config, keys: Keys, e: Emit, node: NodePattern)
    requires CreateNode(cfg, keys, e, node).Ok?
    ensures var (id, e') := CreateNode(cfg, keys, e, node).value;
      Writes(cfg, Shown([VisitOf(keys, e, node, id)]), e.out, e'.out)
  {
    var (id, e') := CreateNode(cfg, keys, e, node).value;
    var v := VisitOf(keys, e, node, id);
    FilterOne((v: Visit) => v.made && (v.node.kinds != [] || v.node.props.Some?), v);
    if v.made && (node.kinds != [] || node.props.Some?) {
      ObjectDescribes(cfg, v);
      WritesOne(cfg, v, e.out, NodeObjects(cfg, node, id)[0]);
      assert e'.out == e.out + [NodeObjects(cfg, node, id)[0]];
    } else {
      assert e'.out == e.out;
      WritesNothing(cfg, e.out, e'.out);
    }
  }

  /** What one visit does to the count, and which id it gets. */
  lemma NodeNumbered(cfg: Config, keys: Keys, e: Emit, node: NodePattern)
    requires CreateNode(cfg, keys, e, node).Ok?
    ensures var (id, e') := CreateNode(cfg, keys, e, node).value;
      var v := VisitOf(keys, e, node, id);
      && e'.anon == e.anon + (if v.anonymous then 1 else 0)
      && (v.anonymous ==> id == AnonId(cfg, KindOf(node), e.anon + 1))
      && KeyedRight(cfg, keys, v)
  {
    KeyedIff(keys, node);
  }

  lemma NodeLeads(cfg: Config, keys: Keys, e: Emit, node: NodePattern)
    requires CreateNode(cfg, keys, e, node).Ok?
    ensures var (id, e') := CreateNode(cfg, keys, e, node).value;
      Leads(cfg, keys, e, [VisitOf(keys, e, node, id)], e')
  {
    var (id, e') := CreateNode(cfg, keys, e, node).value;
    var v := VisitOf(keys, e, node, id);
    NodeWritten(cfg, keys, e, node);
    NodeNumbered(cfg, keys, e, node);
    AnonymousOne(cfg, v, e.anon);
  }

  // ---------------------------------------------------------------------------
  // Paths, statements and passes
  // ---------------------------------------------------------------------------

  lemma EdgeLeads(cfg: Config, keys: Keys, e: Emit, edge: Obj)
    requires edge.EdgeObj?
    ensures Leads(cfg, keys, e, [], e.(out := e.out + [edge]))
  {
    NodesInSnoc(e.out, edge);
    LeadsNowhere(cfg, keys, e, e.(out := e.out + [edge]));
  }

  lemma {:induction false} TailLeads(cfg: Config, keys: Keys, e: Emit, subject: Bytes,
                                     tail: seq<(RelPattern, NodePattern)>)
    requires EmitTail(cfg, keys, e, subject, tail).Ok?
    ensures Leads(cfg, keys, e, TailVisits(cfg, keys, e, subject, tail), EmitTail(cfg, keys, e, subject, tail).value)
    decreases |tail|
  {
    if tail == [] {
      LeadsNowhere(cfg, keys, e, e);
    } else {
      var (rel, node) := tail[0];
      NodeLeads(cfg, keys, e, node);
      var (target, e1) := CreateNode(cfg, keys, e, node).value;
      var edge := if rel.dir.Outgoing? then EdgeObject(cfg, rel, subject, target)
                  else EdgeObject(cfg, rel, target, subject);
      var e2 := e1.(out := e1.out + [edge.value]);
      var first, rest := [VisitOf(keys, e, node, target)], TailVisits(cfg, keys, e2, target, tail[1..]);
      EdgeLeads(cfg, keys, e1, edge.value);
      LeadsBoth(cfg, keys, e, first, e1, [], e2);
      assert first + [] == first;
      TailLeads(cfg, keys, e2, target, tail[1..]);
      LeadsBoth(cfg, keys, e, first, e2, rest, EmitTail(cfg, keys, e2, target, tail[1..]).value);
    }
  }

  lemma PartLeads(cfg: Config, keys: Keys, e: Emit, part: Part)
    requires EmitPart(cfg, keys, e, part).Ok?
    ensures Leads(cfg, keys, e, PartVisits(cfg, keys, e, part), EmitPart(cfg, keys, e, part).value)
  {
    NodeLeads(cfg, keys, e, part.head);
    var (id, e1) := CreateNode(cfg, keys, e, part.head).value;
    TailLeads(cfg, keys, e1, id, part.tail);
    LeadsBoth(cfg, keys, e, [VisitOf(keys, e, part.head, id)], e1, TailVisits(cfg, keys, e1, id, part.tail),
              EmitTail(cfg, keys, e1, id, part.tail).value);
  }

  lemma {:induction false} PartsLead(cfg: Config, keys: Keys, e: Emit, parts: seq<Part>)
    requires EmitParts(cfg, keys, e, parts).Ok?
    ensures Leads(cfg, keys, e, PartsVisits(cfg, keys, e, parts), EmitParts(cfg, keys, e, parts).value)
    decreases |parts|
  {
    if parts == [] {
      LeadsNowhere(cfg, keys, e, e);
    } else {
      var e1 := EmitPart(cfg, keys, e, parts[0]).value;
      PartLeads(cfg, keys, e, parts[0]);
      PartsLead(cfg, keys, e1, parts[1..]);
      LeadsBoth(cfg, keys, e, PartVisits(cfg, keys, e, parts[0]), e1, PartsVisits(cfg, keys, e1, parts[1..]),
                EmitParts(cfg, keys, e1, parts[1..]).value);
    }
  }

  lemma {:induction false} ClausesLead(cfg: Config, keys: Keys, e: Emit, clauses: seq<Clause>)
    requires EmitClauses(cfg, keys, e, clauses).Ok?
    ensures Leads(cfg, keys, e, ClausesVisits(cfg, keys, e, clauses), EmitClauses(cfg, keys, e, clauses).value)
    decreases |clauses|
  {
    if clauses == [] {
      LeadsNowhere(cfg, keys, e, e);
    } else {
      var parts := clauses[0].parts;
      var e1 := EmitParts(cfg, keys, e, parts).value;
      PartsLead(cfg, keys, e, parts);
      ClausesLead(cfg, keys, e1, clauses[1..]);
      LeadsBoth(cfg, keys, e, PartsVisits(cfg, keys, e, parts), e1, ClausesVisits(cfg, keys, e1, clauses[1..]),
                EmitClauses(cfg, keys, e1, clauses[1..]).value);
    }
  }

  /** Bindings play no part in it. */
  lemma LeadsRebound(cfg: Config, keys: Keys, e: Emit, vs: seq<Visit>, e': Emit, vars: map<string, Bytes>)
    ensures Leads(cfg, keys, e.(vars := vars), vs, e') == Leads(cfg, keys, e, vs, e')
    ensures Leads(cfg, keys, e, vs, e'.(vars := vars)) == Leads(cfg, keys, e, vs, e')
  {
  }

  lemma {:induction false} NodesLead(cfg: Config, keys: Keys, e: Emit, ss: seq<Statement>)
    requires NodesPass(cfg, keys, e, ss).Ok?
    ensures Leads(cfg, keys, e, NodesVisits(cfg, keys, e, ss), NodesPass(cfg, keys, e, ss).value)
    decreases |ss|
  {
    if ss == [] {
      LeadsNowhere(cfg, keys, e, e);
    } else {
      var bare, e1 := e.(vars := map[]), NodesOf(cfg, keys, e, ss[0]).value;
      var first := if ss[0].CreateOnly? then ClausesVisits(cfg, keys, bare, ss[0].writes) else [];
      if ss[0].CreateOnly? { ClausesLead(cfg, keys, bare, ss[0].writes); } else { LeadsNowhere(cfg, keys, bare, e1); }
      LeadsRebound(cfg, keys, e, first, e1, map[]);
      NodesLead(cfg, keys, e1, ss[1..]);
      LeadsBoth(cfg, keys, e, first, e1, NodesVisits(cfg, keys, e1, ss[1..]), NodesPass(cfg, keys, e1, ss[1..]).value);
    }
  }

  lemma EdgeStatementLeads(cfg: Config, keys: Keys, hash: Bytes -> nat, g: Progress, s: Statement)
    requires EdgesOf(cfg, keys, hash, g, s).Ok?
    ensures Leads(cfg, keys, g.emit, EdgeVisits(cfg, keys, hash, g, s), EdgesOf(cfg, keys, hash, g, s).value.emit)
  {
    var e' := EdgesOf(cfg, keys, hash, g, s).value.emit;
    if s.Match? && AllKnown(hash, g.emit.created, BindAll(cfg, keys, UNBOUND, s.nodes).value.ids) {
      var b := BindAll(cfg, keys, UNBOUND, s.nodes).value;
      var bound := g.emit.(vars := b.vars);
      ClausesLead(cfg, keys, bound, s.writes);
      LeadsRebound(cfg, keys, g.emit, ClausesVisits(cfg, keys, bound, s.writes), e', b.vars);
    } else {
      LeadsNowhere(cfg, keys, g.emit, e');
    }
  }

  lemma {:induction false} EdgesLead(cfg: Config, keys: Keys, hash: Bytes -> nat, g: Progress, ss: seq<Statement>)
    requires EdgesPass(cfg, keys, hash, g, ss).Ok?
    ensures Leads(cfg, keys, g.emit, EdgesVisits(cfg, keys, hash, g, ss), EdgesPass(cfg, keys, hash, g, ss).value.emit)
    decreases |ss|
  {
    if ss == [] {
      LeadsNowhere(cfg, keys, g.emit, g.emit);
    } else {
      var g1 := EdgesOf(cfg, keys, hash, g, ss[0]).value;
      EdgeStatementLeads(cfg, keys, hash, g, ss[0]);
      EdgesLead(cfg, keys, hash, g1, ss[1..]);
      LeadsBoth(cfg, keys, g.emit, EdgeVisits(cfg, keys, hash, g, ss[0]), g1.emit,
                EdgesVisits(cfg, keys, hash, g1, ss[1..]), EdgesPass(cfg, keys, hash, g1, ss[1..]).value.emit);
    }
  }

  // ---------------------------------------------------------------------------
  // The whole import
  // ---------------------------------------------------------------------------

  lemma ImportLeads(cfg: Config, hash: Bytes -> nat, ss: seq<Statement>)
    requires Import(cfg, hash, ss).Ok?
    ensures var keys := Learn(map[], Sightings(ss)).value;
      Leads(cfg, keys, FRESH, ImportVisits(cfg, hash, ss), Import(cfg, hash, ss).value.emit)
  {
    var keys := Learn(map[], Sightings(ss)).value;
    var nodes, vs := NodesPass(cfg, keys, FRESH, ss).value, NodesVisits(cfg, keys, FRESH, ss);
    var start := Progress(nodes.(vars := map[]), 0);
    NodesLead(cfg, keys, FRESH, ss);
    LeadsRebound(cfg, keys, FRESH, vs, nodes, map[]);
    EdgesLead(cfg, keys, hash, start, ss);
    LeadsBoth(cfg, keys, FRESH, vs, start.emit, EdgesVisits(cfg, keys, hash, start, ss),
              EdgesPass(cfg, keys, hash, start, ss).value.emit);
  }

  /** Unkeyed nodes are numbered 1, 2, 3, … through both passes, so no two of them share an id. */
  lemma UnkeyedNodesAreDistinct(cfg: Config, hash: Bytes -> nat, ss: seq<Statement>, i: nat, k: nat)
    requires Import(cfg, hash, ss).Ok?
    requires i < k < |Anonymous(ImportVisits(cfg, hash, ss))|
    ensures var vs := Anonymous(ImportVisits(cfg, hash, ss));
      vs[i].id == AnonId(cfg, KindOf(vs[i].node), i + 1) && vs[i].id != vs[k].id
  {
    var vs := Anonymous(ImportVisits(cfg, hash, ss));
    ImportLeads(cfg, hash, ss);
    assert NumberedAt(cfg, vs, 0, i) && NumberedAt(cfg, vs, 0, k);
    if vs[i].id == vs[k].id { AnonIdInjective(cfg, KindOf(vs[i].node), i + 1, KindOf(vs[k].node), k + 1); }
  }

  /**
   * The node objects of an import, in order, are those of its new nodes that have a label or a
   * property map: each with the node's id, its labels and its non-null properties, prefixed.
   */
  lemma NodesAreDescribed(cfg: Config, hash: Bytes -> nat, ss: seq<Statement>)
    requires Import(cfg, hash, ss).Ok?
    ensures DescribesAll(cfg, Shown(ImportVisits(cfg, hash, ss)), NodesIn(Import(cfg, hash, ss).value.emit.out))
  {
    ImportLeads(cfg, hash, ss);
    var vs, e := ImportVisits(cfg, hash, ss), Import(cfg, hash, ss).value.emit;
    assert NodesIn(e.out)[0..] == NodesIn(e.out);
  }

  /** Every new node of an import that carries its label's keys has the id of its key values. */
  lemma KeyedNodesAreRight(cfg: Config, hash: Bytes -> nat, ss: seq<Statement>)
    requires Import(cfg, hash, ss).Ok?
    ensures forall v | v in ImportVisits(cfg, hash, ss) :: KeyedRight(cfg, Learn(map[], Sightings(ss)).value, v)
  {
    ImportLeads(cfg, hash, ss);
  }

  /**
   * So a MATCH binds a node to the id of such a new node exactly when the two have the same label
   * and the same texts for its keys.
   */
  lemma MatchFindsIff(cfg: Config, keys: Keys, v: Visit, node: NodePattern)
    requires v.made && !v.anonymous && KeyedRight(cfg, keys, v) && BindOne(cfg, keys, UNBOUND, node).Ok?
    ensures BindOne(cfg, keys, UNBOUND, node).value.ids == [v.id] <==>
      && v.node.kinds[0] == node.kinds[0]
      && KeyValues(keys[node.kinds[0]], v.node.props.value) == KeyValues(keys[node.kinds[0]], node.props.value)
  {
    var id := BindOne(cfg, keys, UNBOUND, node).value.ids[0];
    var mine := KeyValues(keys[v.node.kinds[0]], v.node.props.value).value;
    var theirs := KeyValues(keys[node.kinds[0]], node.props.value).value;
    if v.id == id { NodeIdInjective(cfg.vocab, v.node.kinds[0], mine, node.kinds[0], theirs); }
  }

  // ---------------------------------------------------------------------------
  // What a MATCH binds
  // ---------------------------------------------------------------------------

  /** The id is that of the node's key values. */
  ghost predicate KeyIdOf(cfg: Config, keys: Keys, node: NodePattern, id: Bytes) {
    && node.kinds != [] && node.kinds[0] in keys && node.props.Some?
    && var values := KeyValues(keys[node.kinds[0]], node.props.value);
       values.Some? && id == NodeId(cfg.vocab, node.kinds[0], values.value)
  }

  ghost predicate NamedLater(nodes: seq<NodePattern>, i: nat)
    requires i < |nodes|
  {
    exists k :: i < k < |nodes| && nodes[k].name == nodes[i].name
  }

  /** The node has its own id, and so has its variable, unless a later node takes the variable. */
  ghost predicate BoundRight(cfg: Config, keys: Keys, nodes: seq<NodePattern>, ids: seq<Bytes>, vars: map<string,
                             Bytes>,
                             i: nat)
    requires i < |nodes| && i < |ids|
  {
    && KeyIdOf(cfg, keys, nodes[i], ids[i]) && nodes[i].name.Some?
    && (!NamedLater(nodes, i) ==> nodes[i].name.value in vars && vars[nodes[i].name.value] == ids[i])
  }

  ghost predicate Names(nodes: seq<NodePattern>, v: string) {
    exists i :: 0 <= i < |nodes| && nodes[i].name == Some(v)
  }

  /** Names that no node has keep their binding. */
  ghost predicate Keeps(nodes: seq<NodePattern>, before: map<string, Bytes>, after: map<string, Bytes>, v: string) {
    !Names(nodes, v) ==> (v in after <==> v in before) && (v in after && v in before ==> after[v] == before[v])
  }

  lemma {:induction false} BindsRight(cfg: Config, keys: Keys, b: Bound, nodes: seq<NodePattern>)
    requires BindAll(cfg, keys, b, nodes).Ok?
    ensures var r := BindAll(cfg, keys, b, nodes).value;
      && |r.ids| == |b.ids| + |nodes| && b.ids == r.ids[..|b.ids|]
      && (forall i | 0 <= i < |nodes| :: BoundRight(cfg, keys, nodes, r.ids[|b.ids|..], r.vars, i))
      && (forall v :: Keeps(nodes, b.vars, r.vars, v))
    decreases |nodes|
  {
    if nodes != [] {
      var rest, b' := nodes[1..], BindOne(cfg, keys, b, nodes[0]).value;
      BindsRight(cfg, keys, b', rest);
      var r := BindAll(cfg, keys, b, nodes).value;
      var ids := r.ids[|b.ids|..];
      assert r.ids[|b'.ids|..] == ids[1..] && ids[0] == b'.ids[|b.ids|];
      forall i | 0 <= i < |nodes| ensures BoundRight(cfg, keys, nodes, ids, r.vars, i) {
        if i == 0 {
          var name := nodes[0].name.value;
          assert Keeps(rest, b'.vars, r.vars, name);
          if Names(rest, name) {
            var k :| 0 <= k < |rest| && rest[k].name == Some(name);
            assert nodes[k + 1].name == nodes[0].name;
          }
        } else {
          assert BoundRight(cfg, keys, rest, ids[1..], r.vars, i - 1);
          if NamedLater(rest, i - 1) {
            var k :| i - 1 < k < |rest| && rest[k].name == rest[i - 1].name;
            assert nodes[k + 1].name == nodes[i].name;
          }
        }
      }
      forall v ensures Keeps(nodes, b.vars, r.vars, v) {
        assert Keeps(rest, b'.vars, r.vars, v);
        if Names(rest, v) {
          var k :| 0 <= k < |rest| && rest[k].name == Some(v);
          assert nodes[k + 1].name == Some(v);
        }
        assert nodes[0].name == Some(v) ==> Names(nodes, v);
      }
    }
  }

  /**
   * A MATCH binds exactly its variables, each to the id of the key values of the last node it names,
   * and looks up the ids of all its nodes, in order.
   */
  lemma MatchBinds(cfg: Config, keys: Keys, nodes: seq<NodePattern>)
    requires BindAll(cfg, keys, UNBOUND, nodes).Ok?
    ensures var b := BindAll(cfg, keys, UNBOUND, nodes).value;
      && |b.ids| == |nodes| && (forall i | 0 <= i < |nodes| :: BoundRight(cfg, keys, nodes, b.ids, b.vars, i))
      && (forall v | v in b.vars :: Names(nodes, v))
  {
    BindsRight(cfg, keys, UNBOUND, nodes);
    var b := BindAll(cfg, keys, UNBOUND, nodes).value;
    assert b.ids[0..] == b.ids;
    forall v | v in b.vars ensures Names(nodes, v) { assert Keeps(nodes, map[], b.vars, v); }
  }
}
