/**
 * The three passes over a whole script, and that the edges they emit do not depend on the order of
 * its statements. Passes run over all files, so a script stands for the files one after another.
 */
module ImportOrder {
  import opened Ledger
  import opened Octets
  import opened Identity
  import opened CypherImport

  // ---------------------------------------------------------------------------
  // Pass 1: match keys
  // ---------------------------------------------------------------------------

  type Sighting = Option<(Name, seq<Name>)>

  /** What a matched node says about its label's keys; None when it is not matchable. */
  function SightingOf(node: NodePattern): Sighting {
    if Matchable(node) then Some((node.kinds[0], KeyNames(node.props.value))) else None
  }

  function SightingsOf(s: Statement): seq<Sighting> {
    match s
    case Match(nodes, _) => seq(|nodes|, i requires 0 <= i < |nodes| => SightingOf(nodes[i]))
    case BadMatch => [None]
    case _ => []
  }

  function Sightings(ss: seq<Statement>): seq<Sighting> {
    if ss == [] then [] else SightingsOf(ss[0]) + Sightings(ss[1..])
  }

  function Learn(keys: Keys, seen: seq<Sighting>): Result<Keys, ImportError>
    decreases |seen|
  {
    if seen == [] then Ok(keys)
    else if seen[0].None? then Err(Unsupported)
    else
      var (kind, ks) := seen[0].value;
      if kind !in keys then Learn(keys[kind := ks], seen[1..])
      else if keys[kind] == ks then Learn(keys, seen[1..])
      else Err(ConflictingKeys(kind))
  }

  ghost predicate Agree(keys: Keys, o: Sighting) {
    o.Some? && (o.value.0 in keys ==> keys[o.value.0] == o.value.1)
  }

  /** Every label is matched by one key set, also against what is already known. */
  ghost predicate OneKeySet(keys: Keys, seen: seq<Sighting>) {
    && (forall o | o in seen :: Agree(keys, o))
    && (forall o, o' | o in seen && o' in seen && o.value.0 == o'.value.0 :: o.value.1 == o'.value.1)
  }

  /** What is learned: the known keys and exactly the sighted ones. */
  ghost predicate Learned(keys: Keys, seen: seq<Sighting>, r: Keys) {
    && (forall k | k in keys :: k in r && r[k] == keys[k])
    && (forall o | o in seen :: o.Some? && o.value.0 in r && r[o.value.0] == o.value.1)
    && (forall k | k in r :: k in keys || exists o :: o in seen && o.Some? && o.value.0 == k)
  }

  /** Learning succeeds exactly when every label has one key set, in whatever order they are seen. */
  lemma {:induction false} LearnIff(keys: Keys, seen: seq<Sighting>)
    ensures Learn(keys, seen).Ok? <==> OneKeySet(keys, seen)
    ensures Learn(keys, seen).Ok? ==> Learned(keys, seen, Learn(keys, seen).value)
    decreases |seen|
  {
    if seen != [] {
      var first, rest := seen[0], seen[1..];
      assert seen == [first] + rest && first in seen;
      if first.Some? && Agree(keys, first) {
        var keys' := keys[first.value.0 := first.value.1];
        assert first.value.0 in keys ==> keys' == keys;
        LearnIff(keys', rest);
        OneKeySetStep(keys, first, rest);
        if Learn(keys, seen).Ok? { LearnedStep(keys, first, rest, Learn(keys, seen).value); }
      }
    }
  }

  lemma OneKeySetStep(keys: Keys, first: Sighting, rest: seq<Sighting>)
    requires Agree(keys, first)
    ensures OneKeySet(keys[first.value.0 := first.value.1], rest) <==> OneKeySet(keys, [first] + rest)
  {
    var seen, keys' := [first] + rest, keys[first.value.0 := first.value.1];
    if OneKeySet(keys', rest) {
      forall o | o in seen ensures Agree(keys, o) { if o in rest { assert Agree(keys', o); } }
      forall o, o' | o in seen && o' in seen && o.value.0 == o'.value.0 ensures o.value.1 == o'.value.1 {
        if o in rest { assert Agree(keys', o); }
        if o' in rest { assert Agree(keys', o'); }
      }
    }
    if OneKeySet(keys, seen) {
      assert first in seen;
      forall o | o in rest ensures Agree(keys', o) { assert o in seen && Agree(keys, o); }
      forall o, o' | o in rest && o' in rest && o.value.0 == o'.value.0 ensures o.value.1 == o'.value.1 {
        assert o in seen && o' in seen;
      }
    }
  }

  lemma LearnedStep(keys: Keys, first: Sighting, rest: seq<Sighting>, r: Keys)
    requires Agree(keys, first) && Learned(keys[first.value.0 := first.value.1], rest, r)
    ensures Learned(keys, [first] + rest, r)
  {
    var seen, keys' := [first] + rest, keys[first.value.0 := first.value.1];
    forall k | k in r ensures k in keys || exists o :: o in seen && o.Some? && o.value.0 == k {
      if k !in keys' {
        var o :| o in rest && o.Some? && o.value.0 == k;
        assert o in seen;
      } else if k == first.value.0 {
        assert first in seen;
      }
    }
    forall k | k in keys ensures k in r && r[k] == keys[k] { assert k in keys'; }
    forall o | o in seen ensures o.Some? && o.value.0 in r && r[o.value.0] == o.value.1 {
      if o in rest {} else { assert first.value.0 in keys'; }
    }
  }

  lemma {:induction false} SightingsIn(ss: seq<Statement>, o: Sighting)
    ensures o in Sightings(ss) <==> exists s :: s in ss && o in SightingsOf(s)
  {
    if ss != [] {
      SightingsIn(ss[1..], o);
      assert ss == [ss[0]] + ss[1..];
      if s :| s in ss && o in SightingsOf(s) { assert s == ss[0] || s in ss[1..]; }
      if o in SightingsOf(ss[0]) { assert ss[0] in ss; }
      if s :| s in ss[1..] && o in SightingsOf(s) { assert s in ss; }
    }
  }

  lemma SameMembers<T>(ss: seq<T>, tt: seq<T>)
    requires multiset(ss) == multiset(tt)
    ensures forall s :: s in ss <==> s in tt
  {
    forall s ensures s in ss <==> s in tt {
      assert s in ss <==> s in multiset(ss);
      assert s in tt <==> s in multiset(tt);
    }
  }

  lemma SameSightings(ss: seq<Statement>, tt: seq<Statement>)
    requires multiset(ss) == multiset(tt)
    ensures forall o :: o in Sightings(ss) <==> o in Sightings(tt)
  {
    SameMembers(ss, tt);
    forall o ensures o in Sightings(ss) <==> o in Sightings(tt) {
      SightingsIn(ss, o);
      SightingsIn(tt, o);
    }
  }

  /** The learned keys, and whether learning fails, do not depend on the order of statements. */
  lemma LearnPermutes(ss: seq<Statement>, tt: seq<Statement>)
    requires multiset(ss) == multiset(tt)
    ensures Learn(map[], Sightings(ss)).Ok? <==> Learn(map[], Sightings(tt)).Ok?
    ensures Learn(map[], Sightings(ss)).Ok? ==> Learn(map[], Sightings(ss)) == Learn(map[], Sightings(tt))
  {
    SameSightings(ss, tt);
    LearnIff(map[], Sightings(ss));
    LearnIff(map[], Sightings(tt));
    if Learn(map[], Sightings(ss)).Ok? {
      LearnedUnique(Sightings(ss), Sightings(tt), Learn(map[], Sightings(ss)).value, Learn(map[], Sightings(tt)).value);
    }
  }

  lemma LearnedUnique(xs: seq<Sighting>, ys: seq<Sighting>, a: Keys, b: Keys)
    requires Learned(map[], xs, a) && Learned(map[], ys, b) && forall o :: o in xs <==> o in ys
    ensures a == b
  {
    forall k | k in a ensures k in b && a[k] == b[k] {
      var o :| o in xs && o.Some? && o.value.0 == k;
      assert o in ys;
    }
    forall k | k in b ensures k in a {
      var o :| o in ys && o.Some? && o.value.0 == k;
      assert o in xs;
    }
  }

  // ---------------------------------------------------------------------------
  // Pass 2: nodes, and edges inlined in CREATE paths
  // ---------------------------------------------------------------------------

  function NodesOf(cfg: Config, keys: Keys, e: Emit, s: Statement): Emitted {
    match s
    case CreateOnly(writes) => EmitClauses(cfg, keys, e.(vars := map[]), writes)
    case BadCreate => Err(Unsupported)
    case Other => Err(Unsupported)
    case _ => Ok(e.(vars := map[]))
  }

  /** `write_nodes_ndjson`. */
  function NodesPass(cfg: Config, keys: Keys, e: Emit, ss: seq<Statement>): Emitted
    decreases |ss|
  {
    if ss == [] then Ok(e)
    else
      var r := NodesOf(cfg, keys, e, ss[0]);
      if r.Err? then r else NodesPass(cfg, keys, r.value, ss[1..])
  }

  // ---------------------------------------------------------------------------
  // Pass 3: edges between matched nodes
  // ---------------------------------------------------------------------------

  /** Matched variables bound to their key-derived ids, and those ids in order. */
  datatype Bound = Bound(vars: map<string, Bytes>, ids: seq<Bytes>)

  function BindOne(cfg: Config, keys: Keys, b: Bound, node: NodePattern): Result<Bound, ImportError> {
    if !Matchable(node) || node.name.None? || node.kinds[0] !in keys then Err(Unsupported)
    else
      var values := KeyValues(keys[node.kinds[0]], node.props.value);
      if values.None? then Err(Unsupported)
      else
        var id := NodeId(cfg.vocab, node.kinds[0], values.value);
        Ok(Bound(b.vars[node.name.value := id], b.ids + [id]))
  }

  function BindAll(cfg: Config, keys: Keys, b: Bound, nodes: seq<NodePattern>): Result<Bound, ImportError>
    decreases |nodes|
  {
    if nodes == [] then Ok(b)
    else
      var r := BindOne(cfg, keys, b, nodes[0]);
      if r.Err? then r else BindAll(cfg, keys, r.value, nodes[1..])
  }

  const UNBOUND := Bound(map[], [])

  /** The dangling-edge check compares hashes of ids. */
  predicate Known(hash: Bytes -> nat, created: set<Bytes>, id: Bytes) {
    hash(id) in set c | c in created :: hash(c)
  }

  predicate AllKnown(hash: Bytes -> nat, created: set<Bytes>, ids: seq<Bytes>) {
    forall i | 0 <= i < |ids| :: Known(hash, created, ids[i])
  }

  datatype Progress = Progress(emit: Emit, skipped: nat)

  function EdgesOf(cfg: Config, keys: Keys, hash: Bytes -> nat, g: Progress, s: Statement)
    : Result<Progress, ImportError>
  {
    match s
    case Match(nodes, writes) =>
      (var b := BindAll(cfg, keys, UNBOUND, nodes);
       if b.Err? then Err(b.error)
       else if !AllKnown(hash, g.emit.created, b.value.ids) then Ok(g.(skipped := g.skipped + 1))
       else
         var r := EmitClauses(cfg, keys, g.emit.(vars := b.value.vars), writes);
         if r.Err? then Err(r.error) else Ok(g.(emit := r.value)))
    case BadMatch => Err(Unsupported)
    case _ => Ok(g)
  }

  /** `write_edges_ndjson`. */
  function EdgesPass(cfg: Config, keys: Keys, hash: Bytes -> nat, g: Progress, ss: seq<Statement>)
    : Result<Progress, ImportError>
    decreases |ss|
  {
    if ss == [] then Ok(g)
    else
      var r := EdgesOf(cfg, keys, hash, g, ss[0]);
      if r.Err? then r else EdgesPass(cfg, keys, hash, r.value, ss[1..])
  }

  /** All three passes. */
  function Import(cfg: Config, hash: Bytes -> nat, ss: seq<Statement>): Result<Progress, ImportError> {
    var keys := Learn(map[], Sightings(ss));
    if keys.Err? then Err(keys.error)
    else
      var nodes := NodesPass(cfg, keys.value, FRESH, ss);
      if nodes.Err? then Err(nodes.error)
      else EdgesPass(cfg, keys.value, hash, Progress(nodes.value.(vars := map[]), 0), ss)
  }

  // ---------------------------------------------------------------------------
  // Sums over statements
  // ---------------------------------------------------------------------------

  function Edges(out: seq<Obj>): multiset<Obj> {
    if out == [] then multiset{} else (if out[0].EdgeObj? then multiset{out[0]} else multiset{}) + Edges(out[1..])
  }

  lemma {:induction false} EdgesAppend(a: seq<Obj>, b: seq<Obj>)
    ensures Edges(a + b) == Edges(a) + Edges(b)
  {
    if a == [] {
      assert a + b == b;
    } else {
      EdgesAppend(a[1..], b);
      assert (a + b)[0] == a[0] && (a + b)[1..] == a[1..] + b;
      SumAssociates(if a[0].EdgeObj? then multiset{a[0]} else multiset{}, Edges(a[1..]), Edges(b));
    }
  }

  lemma SumAssociates(a: multiset<Obj>, b: multiset<Obj>, c: multiset<Obj>)
    ensures a + (b + c) == (a + b) + c
  {
  }

  /** Every edge counts as often as it is written, and nothing else does. */
  lemma {:induction false} EdgesCount(out: seq<Obj>, o: Obj)
    ensures Edges(out)[o] == if o.EdgeObj? then multiset(out)[o] else 0
  {
    if out != [] {
      EdgesCount(out[1..], o);
      assert out == [out[0]] + out[1..];
    }
  }

  /** A contribution per statement, added up. */
  datatype Share = Share(edges: multiset<Obj>, created: set<Bytes>, skipped: nat)

  const NOTHING := Share(multiset{}, {}, 0)

  function Add(a: Share, b: Share): Share {
    Share(a.edges + b.edges, a.created + b.created, a.skipped + b.skipped)
  }

  lemma AddSwaps(a: Share, b: Share, c: Share)
    ensures Add(a, Add(b, c)) == Add(b, Add(a, c))
  {
    assert a.edges + (b.edges + c.edges) == b.edges + (a.edges + c.edges);
    assert a.created + (b.created + c.created) == b.created + (a.created + c.created);
  }

  function Total<T>(ss: seq<T>, f: T -> Share): Share {
    if ss == [] then NOTHING else Add(f(ss[0]), Total(ss[1..], f))
  }

  lemma {:induction false} TotalWithout<T>(ss: seq<T>, f: T -> Share, k: nat)
    requires k < |ss|
    ensures Total(ss, f) == Add(f(ss[k]), Total(ss[..k] + ss[k + 1..], f))
  {
    var without := ss[..k] + ss[k + 1..];
    if k == 0 {
      assert without == ss[1..];
    } else {
      TotalWithout(ss[1..], f, k - 1);
      var fewer := ss[1..][..k - 1] + ss[1..][k..];
      assert without == [ss[0]] + fewer;
      assert without[1..] == fewer;
      AddSwaps(f(ss[0]), f(ss[k]), Total(fewer, f));
    }
  }

  lemma WithoutFirst<T>(ss: seq<T>, tt: seq<T>) returns (k: nat)
    requires multiset(ss) == multiset(tt) && ss != []
    ensures k < |tt| && tt[k] == ss[0] && multiset(ss[1..]) == multiset(tt[..k] + tt[k + 1..])
  {
    assert ss[0] in multiset(tt);
    k :| 0 <= k < |tt| && tt[k] == ss[0];
    assert ss == [ss[0]] + ss[1..];
    assert tt == tt[..k] + [tt[k]] + tt[k + 1..];
    assert multiset(ss) == multiset{ss[0]} + multiset(ss[1..]);
    assert multiset(tt) == multiset{ss[0]} + multiset(tt[..k] + tt[k + 1..]);
    assert multiset(ss[1..]) == multiset(ss) - multiset{ss[0]};
    assert multiset(tt[..k] + tt[k + 1..]) == multiset(tt) - multiset{ss[0]};
  }

  lemma {:induction false} TotalPermutes<T>(ss: seq<T>, tt: seq<T>, f: T -> Share)
    requires multiset(ss) == multiset(tt)
    ensures Total(ss, f) == Total(tt, f)
    decreases |ss|
  {
    if ss == [] {
      assert |tt| == |multiset(tt)| == |multiset(ss)| == 0;
    } else {
      var k := WithoutFirst(ss, tt);
      TotalPermutes(ss[1..], tt[..k] + tt[k + 1..], f);
      TotalWithout(tt, f, k);
    }
  }

  // ---------------------------------------------------------------------------
  // The passes as sums
  // ---------------------------------------------------------------------------

  /** Created nodes carry their keys, and MATCH … CREATE only links what it matched. */
  predicate StatementKeyed(cfg: Config, keys: Keys, s: Statement) {
    match s
    case CreateOnly(writes) => ClausesKeyed(keys, {}, writes)
    case Match(nodes, writes) =>
      var b := BindAll(cfg, keys, UNBOUND, nodes);
      b.Ok? ==> LinksOnly(b.value.vars.Keys, writes)
    case _ => true
  }

  ghost predicate AllKeyed(cfg: Config, keys: Keys, ss: seq<Statement>) {
    forall s | s in ss :: StatementKeyed(cfg, keys, s)
  }

  /** What a statement adds in pass 2, on its own. */
  function NodesShare(cfg: Config, keys: Keys): Statement -> Share {
    (s: Statement) =>
      var r := NodesOf(cfg, keys, FRESH, s);
      if r.Ok? then Share(Edges(r.value.out), r.value.created, 0) else NOTHING
  }

  /** The state after a pass has added `share` to `e`. */
  ghost predicate Holds(e: Emit, e': Emit, share: Share) {
    && Edges(e'.out) == Edges(e.out) + share.edges
    && e'.created == e.created + share.created
  }

  lemma HoldsAdd(e: Emit, e1: Emit, e2: Emit, a: Share, b: Share)
    requires Holds(e, e1, a) && Holds(e1, e2, b)
    ensures Holds(e, e2, Add(a, b))
  {
    assert (Edges(e.out) + a.edges) + b.edges == Edges(e.out) + (a.edges + b.edges);
    assert (e.created + a.created) + b.created == e.created + (a.created + b.created);
  }

  ghost predicate NodesAllOk(cfg: Config, keys: Keys, ss: seq<Statement>) {
    forall s | s in ss :: NodesOf(cfg, keys, FRESH, s).Ok?
  }

  lemma InCons<T>(ss: seq<T>)
    requires ss != []
    ensures forall s :: s in ss <==> s == ss[0] || s in ss[1..]
  {
    assert ss == [ss[0]] + ss[1..];
  }

  lemma NodesStep(cfg: Config, keys: Keys, e: Emit, s: Statement)
    requires StatementKeyed(cfg, keys, s)
    ensures var r, alone := NodesOf(cfg, keys, e, s), NodesOf(cfg, keys, FRESH, s);
      && (r.Ok? <==> alone.Ok?)
      && (r.Ok? ==> Holds(e, r.value, NodesShare(cfg, keys)(s)))
  {
    if s.CreateOnly? {
      var start := FRESH;
      assert start.vars.Keys == {};
      ClausesShift(cfg, keys, start, s.writes, e.created, e.anon, e.out);
      assert After(start, e.created, e.anon, e.out) == e.(vars := map[]);
      var alone := EmitClauses(cfg, keys, start, s.writes);
      if alone.Ok? { EdgesAppend(e.out, alone.value.out); }
    }
  }

  /** Pass 2 succeeds when every statement does on its own, and adds up what each of them adds. */
  lemma {:induction false} NodesPassTotal(cfg: Config, keys: Keys, e: Emit, ss: seq<Statement>)
    requires AllKeyed(cfg, keys, ss)
    ensures var r := NodesPass(cfg, keys, e, ss);
      && (r.Ok? <==> NodesAllOk(cfg, keys, ss))
      && (r.Ok? ==> Holds(e, r.value, Total(ss, NodesShare(cfg, keys))))
    decreases |ss|
  {
    if ss != [] {
      InCons(ss);
      NodesStep(cfg, keys, e, ss[0]);
      var r := NodesOf(cfg, keys, e, ss[0]);
      if r.Ok? {
        NodesPassTotal(cfg, keys, r.value, ss[1..]);
        var r' := NodesPass(cfg, keys, r.value, ss[1..]);
        if r'.Ok? {
          HoldsAdd(e, r.value, r'.value, NodesShare(cfg, keys)(ss[0]), Total(ss[1..], NodesShare(cfg, keys)));
        }
      }
    }
  }

  /** A MATCH … CREATE statement on its own, once the created nodes are known. */
  function EdgesAlone(cfg: Config, keys: Keys, hash: Bytes -> nat, created: set<Bytes>, s: Statement)
    : Result<Progress, ImportError>
  {
    EdgesOf(cfg, keys, hash, Progress(Emit(map[], created, 0, []), 0), s)
  }

  function EdgesShare(cfg: Config, keys: Keys, hash: Bytes -> nat, created: set<Bytes>): Statement -> Share {
    (s: Statement) =>
      var r := EdgesAlone(cfg, keys, hash, created, s);
      if r.Ok? then Share(Edges(r.value.emit.out), {}, r.value.skipped) else NOTHING
  }

  lemma EdgesStep(cfg: Config, keys: Keys, hash: Bytes -> nat, g: Progress, s: Statement)
    requires StatementKeyed(cfg, keys, s)
    ensures var r, alone := EdgesOf(cfg, keys, hash, g, s), EdgesAlone(cfg, keys, hash, g.emit.created, s);
      && (r.Ok? <==> alone.Ok?)
      && (r.Ok? ==>
          && Holds(g.emit, r.value.emit, EdgesShare(cfg, keys, hash, g.emit.created)(s))
          && r.value.emit.created == g.emit.created
          && r.value.skipped == g.skipped + alone.value.skipped)
  {
    if s.Match? {
      var b := BindAll(cfg, keys, UNBOUND, s.nodes);
      if b.Ok? && AllKnown(hash, g.emit.created, b.value.ids) {
        var alone := Emit(b.value.vars, g.emit.created, 0, []);
        LinksCreateNothing(cfg, keys, alone, s.writes);
        ClausesShift(cfg, keys, alone, s.writes, g.emit.created, g.emit.anon, g.emit.out);
        assert After(alone, g.emit.created, g.emit.anon, g.emit.out) == g.emit.(vars := b.value.vars);
        var r := EmitClauses(cfg, keys, alone, s.writes);
        if r.Ok? { EdgesAppend(g.emit.out, r.value.out); }
      }
    }
  }

  /** Pass 3 likewise; it creates nothing, so every skip is decided by the nodes of pass 2. */
  lemma {:induction false} EdgesPassTotal(cfg: Config, keys: Keys, hash: Bytes -> nat, g: Progress, ss: seq<Statement>)
    requires AllKeyed(cfg, keys, ss)
    ensures var r, share := EdgesPass(cfg, keys, hash, g, ss), EdgesShare(cfg, keys, hash, g.emit.created);
      && (r.Ok? <==> EdgesAllOk(cfg, keys, hash, g.emit.created, ss))
      && (r.Ok? ==>
          && Holds(g.emit, r.value.emit, Total(ss, share))
          && r.value.skipped == g.skipped + Total(ss, share).skipped)
    decreases |ss|
  {
    if ss != [] {
      InCons(ss);
      EdgesStep(cfg, keys, hash, g, ss[0]);
      var r := EdgesOf(cfg, keys, hash, g, ss[0]);
      if r.Ok? {
        EdgesPassTotal(cfg, keys, hash, r.value, ss[1..]);
        var r' := EdgesPass(cfg, keys, hash, r.value, ss[1..]);
        if r'.Ok? {
          var share := EdgesShare(cfg, keys, hash, g.emit.created);
          HoldsAdd(g.emit, r.value.emit, r'.value.emit, share(ss[0]), Total(ss[1..], share));
        }
      }
    }
  }

  ghost predicate EdgesAllOk(cfg: Config, keys: Keys, hash: Bytes -> nat, created: set<Bytes>, ss: seq<Statement>) {
    forall s | s in ss :: EdgesAlone(cfg, keys, hash, created, s).Ok?
  }

  /**
   * Any permutation of the statements (or files) is accepted exactly when the original is, and
   * then emits the same multiset of edges and skips as many statements.
   */
  lemma ImportPermutes(cfg: Config, hash: Bytes -> nat, ss: seq<Statement>, tt: seq<Statement>)
    requires multiset(ss) == multiset(tt)
    requires Learn(map[], Sightings(ss)).Ok? ==> AllKeyed(cfg, Learn(map[], Sightings(ss)).value, ss)
    ensures var r, r' := Import(cfg, hash, ss), Import(cfg, hash, tt);
      && (r.Ok? <==> r'.Ok?)
      && (r.Ok? ==> Edges(r.value.emit.out) == Edges(r'.value.emit.out) && r.value.skipped == r'.value.skipped)
  {
    LearnPermutes(ss, tt);
    SameMembers(ss, tt);
    if Learn(map[], Sightings(ss)).Ok? {
      var keys := Learn(map[], Sightings(ss)).value;
      assert AllKeyed(cfg, keys, tt);
      NodesPassTotal(cfg, keys, FRESH, ss);
      NodesPassTotal(cfg, keys, FRESH, tt);
      TotalPermutes(ss, tt, NodesShare(cfg, keys));
      var n, n' := NodesPass(cfg, keys, FRESH, ss), NodesPass(cfg, keys, FRESH, tt);
      if n.Ok? {
        EdgesPassTotal(cfg, keys, hash, Progress(n.value.(vars := map[]), 0), ss);
        EdgesPassTotal(cfg, keys, hash, Progress(n'.value.(vars := map[]), 0), tt);
        TotalPermutes(ss, tt, EdgesShare(cfg, keys, hash, n.value.created));
      }
    }
  }

  // ---------------------------------------------------------------------------
  // What is skipped
  // ---------------------------------------------------------------------------

  /** Some node the statement matches has an id whose hash no created node has. */
  predicate Dangling(cfg: Config, keys: Keys, hash: Bytes -> nat, created: set<Bytes>, s: Statement) {
    s.Match? && var b := BindAll(cfg, keys, UNBOUND, s.nodes); b.Ok? && !AllKnown(hash, created, b.value.ids)
  }

  function DanglingCount(cfg: Config, keys: Keys, hash: Bytes -> nat, created: set<Bytes>, ss: seq<Statement>): nat {
    if ss == [] then 0
    else (if Dangling(cfg, keys, hash, created, ss[0]) then 1 else 0) + DanglingCount(cfg, keys, hash, created, ss[1..])
  }

  lemma {:induction false} SkipsAddUp(cfg: Config, keys: Keys, hash: Bytes -> nat, created: set<Bytes>,
                                      ss: seq<Statement>)
    requires EdgesAllOk(cfg, keys, hash, created, ss)
    ensures Total(ss, EdgesShare(cfg, keys, hash, created)).skipped == DanglingCount(cfg, keys, hash, created, ss)
    decreases |ss|
  {
    if ss != [] {
      InCons(ss);
      assert EdgesAlone(cfg, keys, hash, created, ss[0]).Ok?;
      SkipsAddUp(cfg, keys, hash, created, ss[1..]);
    }
  }

  /** Pass 3 over keyed statements creates nothing. */
  lemma {:induction false} EdgesPassCreated(cfg: Config, keys: Keys, hash: Bytes -> nat, g: Progress,
                                            ss: seq<Statement>)
    requires AllKeyed(cfg, keys, ss) && EdgesPass(cfg, keys, hash, g, ss).Ok?
    ensures EdgesPass(cfg, keys, hash, g, ss).value.emit.created == g.emit.created
    decreases |ss|
  {
    if ss != [] {
      InCons(ss);
      EdgesStep(cfg, keys, hash, g, ss[0]);
      EdgesPassCreated(cfg, keys, hash, EdgesOf(cfg, keys, hash, g, ss[0]).value, ss[1..]);
    }
  }

  /**
   * The import skips exactly the statements that match a node it never creates: as many as have an
   * id unknown among all the nodes created in the end, and each of these ids is not one of them.
   */
  lemma SkippedAreDangling(cfg: Config, hash: Bytes -> nat, ss: seq<Statement>)
    requires Import(cfg, hash, ss).Ok? && AllKeyed(cfg, Learn(map[], Sightings(ss)).value, ss)
    ensures var keys, end := Learn(map[], Sightings(ss)).value, Import(cfg, hash, ss).value;
      && end.skipped == DanglingCount(cfg, keys, hash, end.emit.created, ss)
      && forall s | s in ss && Dangling(cfg, keys, hash, end.emit.created, s) ::
           exists id :: id in BindAll(cfg, keys, UNBOUND, s.nodes).value.ids && id !in end.emit.created
  {
    var keys, end := Learn(map[], Sightings(ss)).value, Import(cfg, hash, ss).value;
    var start := Progress(NodesPass(cfg, keys, FRESH, ss).value.(vars := map[]), 0);
    EdgesPassTotal(cfg, keys, hash, start, ss);
    EdgesPassCreated(cfg, keys, hash, start, ss);
    SkipsAddUp(cfg, keys, hash, start.emit.created, ss);
    forall s | s in ss && Dangling(cfg, keys, hash, end.emit.created, s)
      ensures exists id :: id in BindAll(cfg, keys, UNBOUND, s.nodes).value.ids && id !in end.emit.created
    {
      var ids := BindAll(cfg, keys, UNBOUND, s.nodes).value.ids;
      var i :| 0 <= i < |ids| && !Known(hash, end.emit.created, ids[i]);
      assert ids[i] !in end.emit.created;
    }
  }
}
