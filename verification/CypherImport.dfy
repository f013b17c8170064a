/**
 * What the three passes of a Cypher script import emit, statement by statement.
 */
module CypherImport {
  import opened Ledger
  import opened Octets
  import opened Identity

  type Name = Bytes

  /** A property literal: a scalar with its text, a list, null, or no literal at all. */
  datatype Value = Scalar(text: Bytes) | ListValue | Null | NotLiteral

  type Props = seq<(Name, Value)>

  datatype NodePattern = NodePattern(name: Option<string>, kinds: seq<Name>, props: Option<Props>)

  datatype Direction = Outgoing | Incoming | Either

  datatype RelPattern = RelPattern(dir: Direction, types: seq<Name>, props: Props, ranged: bool)

  datatype Part = Part(head: NodePattern, tail: seq<(RelPattern, NodePattern)>, isPath: bool)

  datatype Clause = Create(parts: seq<Part>) | OtherClause

  /**
   * A statement by its first keyword. `BadMatch` and `BadCreate` do not parse as a supported
   * update; `Other` begins with neither keyword.
   */
  datatype Statement =
    | Match(nodes: seq<NodePattern>, writes: seq<Clause>)
    | CreateOnly(writes: seq<Clause>)
    | BadMatch
    | BadCreate
    | Other

  datatype ImportError = Unsupported | ConflictingKeys(kind: Name) | NaryDeferred

  datatype EdgePolicy = Annotated | Plain | Nary

  datatype Config = Config(vocab: Option<Bytes>, policy: EdgePolicy)

  type Keys = map<Name, seq<Name>>

  datatype Obj =
    | NodeObj(id: Bytes, kinds: seq<Name>, props: Props)
    | EdgeObj(from: Bytes, kind: Name, to: Bytes, props: Props)

  // ---------------------------------------------------------------------------
  // Keys
  // ---------------------------------------------------------------------------

  predicate Less(a: Bytes, b: Bytes) {
    if a == [] then b != [] else b != [] && (a[0] < b[0] || (a[0] == b[0] && Less(a[1..], b[1..])))
  }

  function Insert(x: Name, sorted: seq<Name>): seq<Name> {
    if sorted == [] || Less(x, sorted[0]) then [x] + sorted
    else if x == sorted[0] then sorted
    else [sorted[0]] + Insert(x, sorted[1..])
  }

  /** The property names of a map, sorted and without duplicates. */
  function KeyNames(props: Props): seq<Name> {
    if props == [] then [] else Insert(props[0].0, KeyNames(props[1..]))
  }

  /** `match_node_parts`: a matched node has one label and a non-empty literal map. */
  predicate Matchable(node: NodePattern) {
    |node.kinds| == 1 && node.props.Some? && node.props.value != []
  }

  /** The entry a property name finds: the first with that name. */
  function Find(props: Props, key: Name): Option<Value> {
    if props == [] then None else if props[0].0 == key then Some(props[0].1) else Find(props[1..], key)
  }

  predicate Covers(keys: Keys, kind: Name, props: Props) {
    kind in keys && forall i | 0 <= i < |keys[kind]| :: Find(props, keys[kind][i]).Some?
  }

  /** The texts of the key values, in key order; None when one is missing or no scalar. */
  function KeyValues(ks: seq<Name>, props: Props): Option<seq<Bytes>> {
    if ks == [] then Some([])
    else
      var rest := KeyValues(ks[..|ks| - 1], props);
      var last := Find(props, ks[|ks| - 1]);
      if rest.Some? && last.Some? && last.value.Scalar? then Some(rest.value + [last.value.text]) else None
  }

  lemma {:induction false} FindIff(props: Props, key: Name)
    ensures Find(props, key).Some? <==> exists i :: 0 <= i < |props| && props[i].0 == key
    ensures forall value :: Find(props, key) == Some(value) <==> FirstValue(props, key, value)
  {
    if props != [] {
      FindIff(props[1..], key);
      assert forall i | 0 < i < |props| :: props[i] == props[1..][i - 1];
      if props[0].0 != key {
        forall value ensures FirstValue(props[1..], key, value) <==> FirstValue(props, key, value) {
          FirstValueCons(props, key, value);
        }
      }
      if i :| 0 <= i < |props[1..]| && props[1..][i].0 == key { assert props[i + 1].0 == key; }
    }
  }

  /** The first entry with this name has this value. */
  ghost predicate FirstValue(props: Props, key: Name, value: Value) {
    exists j :: 0 <= j < |props| && props[j] == (key, value) && forall k | 0 <= k < j :: props[k].0 != key
  }

  lemma FirstValueCons(props: Props, key: Name, value: Value)
    requires props != [] && props[0].0 != key
    ensures FirstValue(props[1..], key, value) <==> FirstValue(props, key, value)
  {
    var rest := props[1..];
    assert forall i | 0 < i < |props| :: props[i] == rest[i - 1];
    if FirstValue(rest, key, value) {
      var j :| 0 <= j < |rest| && rest[j] == (key, value) && forall k | 0 <= k < j :: rest[k].0 != key;
      assert props[j + 1] == (key, value);
    }
    if FirstValue(props, key, value) {
      var j :| 0 <= j < |props| && props[j] == (key, value) && forall k | 0 <= k < j :: props[k].0 != key;
      assert rest[j - 1] == (key, value);
    }
  }

  /** The node has a label with known keys and a property for each of them. */
  predicate CarriesKeys(keys: Keys, node: NodePattern) {
    && node.kinds != [] && node.kinds[0] in keys && node.props.Some?
    && forall k | k in keys[node.kinds[0]] :: exists i :: 0 <= i < |node.props.value| && node.props.value[i].0 == k
  }

  lemma KeyedIff(keys: Keys, node: NodePattern)
    ensures Keyed(keys, node) <==> CarriesKeys(keys, node)
  {
    if node.kinds != [] && node.kinds[0] in keys && node.props.Some? {
      var ks, props := keys[node.kinds[0]], node.props.value;
      forall k | k in ks ensures Find(props, k).Some? <==> exists i :: 0 <= i < |props| && props[i].0 == k {
        FindIff(props, k);
      }
      assert forall i | 0 <= i < |ks| :: ks[i] in ks;
    }
  }

  /** Value `i` is the text of the first entry named by key `i`. */
  ghost predicate ValueAt(ks: seq<Name>, props: Props, values: seq<Bytes>, i: nat)
    requires i < |ks| && i < |values|
  {
    FirstValue(props, ks[i], Scalar(values[i]))
  }

  /** Key values are the texts of the first entries with those names, in key order. */
  lemma {:induction false} KeyValuesIff(ks: seq<Name>, props: Props, values: seq<Bytes>)
    ensures KeyValues(ks, props) == Some(values) <==>
      |values| == |ks| && forall i | 0 <= i < |ks| :: ValueAt(ks, props, values, i)
    decreases |ks|
  {
    if ks != [] {
      var n := |ks| - 1;
      FindIff(props, ks[n]);
      if |values| == |ks| {
        KeyValuesIff(ks[..n], props, values[..n]);
        assert values == values[..n] + [values[n]];
        assert forall i | 0 <= i < n :: ValueAt(ks[..n], props, values[..n], i) == ValueAt(ks, props, values, i);
        assert ValueAt(ks, props, values, n) <==> Find(props, ks[n]) == Some(Scalar(values[n]));
      } else if KeyValues(ks[..n], props).Some? {
        KeyValuesIff(ks[..n], props, KeyValues(ks[..n], props).value);
      }
    }
  }

  function Decimal(n: nat): Bytes {
    if n < 10 then [0x30 + n] else Decimal(n / 10) + [0x30 + n % 10]
  }

  const ANON: Bytes := [0x5F, 0x61, 0x6E, 0x6F, 0x6E, 0x2D]
  const NODE: Bytes := [0x6E, 0x6F, 0x64, 0x65]

  function AnonId(cfg: Config, kind: Option<Name>, n: nat): Bytes {
    Prefix(cfg.vocab) + (Segment(if kind.Some? then kind.value else NODE) + [SLASH] + ANON + Decimal(n))
  }

  // ---------------------------------------------------------------------------
  // Emission
  // ---------------------------------------------------------------------------

  /** Bindings and output while a statement is emitted. */
  datatype Emit = Emit(vars: map<string, Bytes>, created: set<Bytes>, anon: nat, out: seq<Obj>)

  type Emitted = Result<Emit, ImportError>

  predicate AllLiteral(props: Props) {
    forall i | 0 <= i < |props| :: !props[i].1.NotLiteral?
  }

  /** A later entry writes the name again. */
  predicate WritesAgain(props: Props, name: Name) {
    exists i | 0 <= i < |props| :: props[i].0 == name && !props[i].1.Null?
  }

  /** Properties as written: prefixed names, nulls left out, and the last of several values of a name. */
  function Written(cfg: Config, props: Props): Props {
    if props == [] then []
    else
      (if props[0].1.Null? || WritesAgain(props[1..], props[0].0) then []
       else [(Prefix(cfg.vocab) + props[0].0, props[0].1)])
      + Written(cfg, props[1..])
  }

  /** Entry `i` is the last of its name that is not null. */
  ghost predicate StaysAt(props: Props, i: nat)
    requires i < |props|
  {
    !props[i].1.Null? && forall k | i < k < |props| && props[k].0 == props[i].0 :: props[k].1.Null?
  }

  /** Written under this name with this value. */
  ghost predicate HasEntry(cfg: Config, props: Props, name: Name, value: Value) {
    exists i :: 0 <= i < |props| && StaysAt(props, i) && (name, value) == (Prefix(cfg.vocab) + props[i].0, props[i].1)
  }

  lemma StaysRest(props: Props, i: nat)
    requires 0 < i < |props|
    ensures StaysAt(props, i) <==> StaysAt(props[1..], i - 1)
  {
    assert forall k | 0 < k < |props| :: props[k] == props[1..][k - 1];
    if StaysAt(props[1..], i - 1) {
      forall k | i < k < |props| && props[k].0 == props[i].0 ensures props[k].1.Null? {
        assert props[1..][k - 1].1.Null?;
      }
    }
  }

  lemma StaysFirst(props: Props)
    requires props != []
    ensures StaysAt(props, 0) <==> !(props[0].1.Null? || WritesAgain(props[1..], props[0].0))
  {
    assert forall k | 0 < k < |props| :: props[k] == props[1..][k - 1];
  }

  lemma {:induction false} WrittenHas(cfg: Config, props: Props, name: Name, value: Value)
    ensures (name, value) in Written(cfg, props) <==> HasEntry(cfg, props, name, value)
  {
    if props != [] {
      WrittenHas(cfg, props[1..], name, value);
      StaysFirst(props);
      if HasEntry(cfg, props, name, value) {
        var i :| 0 <= i < |props| && StaysAt(props, i)
          && (name, value) == (Prefix(cfg.vocab) + props[i].0, props[i].1);
        if i > 0 {
          StaysRest(props, i);
          assert props[1..][i - 1] == props[i];
        }
      }
      if HasEntry(cfg, props[1..], name, value) {
        var i :| 0 <= i < |props[1..]| && StaysAt(props[1..], i)
          && (name, value) == (Prefix(cfg.vocab) + props[1..][i].0, props[1..][i].1);
        StaysRest(props, i + 1);
        assert props[i + 1] == props[1..][i];
      }
    }
  }

  /** Labels as written. */
  function Named(cfg: Config, names: seq<Name>): (r: seq<Name>)
    ensures |r| == |names| && forall i | 0 <= i < |names| :: r[i] == Prefix(cfg.vocab) + names[i]
  {
    seq(|names|, i requires 0 <= i < |names| => Prefix(cfg.vocab) + names[i])
  }

  predicate IsReference(e: Emit, node: NodePattern) {
    node.name.Some? && node.name.value in e.vars
  }

  predicate Keyed(keys: Keys, node: NodePattern) {
    node.kinds != [] && node.props.Some? && Covers(keys, node.kinds[0], node.props.value)
  }

  /** The id of a node that is not a reference: derived from its keys, or the next anonymous one. */
  function MintedId(cfg: Config, keys: Keys, anon: nat, node: NodePattern): Option<Bytes> {
    if Keyed(keys, node) then
      var values := KeyValues(keys[node.kinds[0]], node.props.value);
      if values.Some? then Some(NodeId(cfg.vocab, node.kinds[0], values.value)) else None
    else Some(AnonId(cfg, if node.kinds == [] then None else Some(node.kinds[0]), anon + 1))
  }

  function Bind(vars: map<string, Bytes>, name: Option<string>, id: Bytes): map<string, Bytes> {
    if name.Some? then vars[name.value := id] else vars
  }

  function NodeObjects(cfg: Config, node: NodePattern, id: Bytes): seq<Obj> {
    if node.kinds == [] && node.props.None? then []
    else [NodeObj(id, Named(cfg, node.kinds), if node.props.Some? then Written(cfg, node.props.value) else [])]
  }

  /** `create_node`: the id the pattern stands for, and what emitting it adds. */
  function CreateNode(cfg: Config, keys: Keys, e: Emit, node: NodePattern): Result<(Bytes, Emit), ImportError> {
    if IsReference(e, node) then
      if node.kinds != [] || node.props.Some? then Err(Unsupported) else Ok((e.vars[node.name.value], e))
    else
      var id := MintedId(cfg, keys, e.anon, node);
      if id.None? || (node.props.Some? && !AllLiteral(node.props.value)) then Err(Unsupported)
      else
        Ok((id.value,
            Emit(Bind(e.vars, node.name, id.value), e.created + {id.value},
                 if Keyed(keys, node) then e.anon else e.anon + 1,
                 e.out + NodeObjects(cfg, node, id.value))))
  }

  /** `emit_edge`. */
  function EdgeObject(cfg: Config, rel: RelPattern, from: Bytes, to: Bytes): Result<Obj, ImportError> {
    if rel.ranged || |rel.types| != 1 || !AllLiteral(rel.props) then Err(Unsupported)
    else
      var props := Written(cfg, rel.props);
      if props != [] && cfg.policy.Nary? then Err(NaryDeferred)
      else Ok(EdgeObj(from, Prefix(cfg.vocab) + rel.types[0], to, if cfg.policy.Annotated? then props else []))
  }

  /** The rest of a path, from its current subject. */
  function EmitTail(cfg: Config, keys: Keys, e: Emit, subject: Bytes, tail: seq<(RelPattern, NodePattern)>): Emitted
    decreases |tail|
  {
    if tail == [] then Ok(e)
    else
      var (rel, node) := tail[0];
      var made := CreateNode(cfg, keys, e, node);
      if made.Err? then Err(made.error)
      else
        var (target, e') := made.value;
        if rel.dir.Either? then Err(Unsupported)
        else
          var edge := if rel.dir.Outgoing? then EdgeObject(cfg, rel, subject, target)
                      else EdgeObject(cfg, rel, target, subject);
          if edge.Err? then Err(edge.error)
          else EmitTail(cfg, keys, e'.(out := e'.out + [edge.value]), target, tail[1..])
  }

  function EmitPart(cfg: Config, keys: Keys, e: Emit, part: Part): Emitted {
    if part.isPath then Err(Unsupported)
    else
      var made := CreateNode(cfg, keys, e, part.head);
      if made.Err? then Err(made.error) else EmitTail(cfg, keys, made.value.1, made.value.0, part.tail)
  }

  function EmitParts(cfg: Config, keys: Keys, e: Emit, parts: seq<Part>): Emitted
    decreases |parts|
  {
    if parts == [] then Ok(e)
    else
      var r := EmitPart(cfg, keys, e, parts[0]);
      if r.Err? then r else EmitParts(cfg, keys, r.value, parts[1..])
  }

  /** `emit_update_creates`. */
  function EmitClauses(cfg: Config, keys: Keys, e: Emit, clauses: seq<Clause>): Emitted
    decreases |clauses|
  {
    if clauses == [] then Ok(e)
    else if clauses[0].OtherClause? then Err(Unsupported)
    else
      var r := EmitParts(cfg, keys, e, clauses[0].parts);
      if r.Err? then r else EmitClauses(cfg, keys, r.value, clauses[1..])
  }

  // ---------------------------------------------------------------------------
  // A statement's emission does not depend on what came before it
  // ---------------------------------------------------------------------------

  const FRESH := Emit(map[], {}, 0, [])

  predicate IsBareRef(bound: set<string>, node: NodePattern) {
    node.name.Some? && node.name.value in bound && node.kinds == [] && node.props.None?
  }

  /** A created node carries its label's key properties; anything else is a reference. */
  predicate NodeKeyed(keys: Keys, bound: set<string>, node: NodePattern) {
    Keyed(keys, node) || IsBareRef(bound, node)
  }

  function NameOf(node: NodePattern): set<string> {
    if node.name.Some? then {node.name.value} else {}
  }

  function TailNames(tail: seq<(RelPattern, NodePattern)>): set<string> {
    if tail == [] then {} else NameOf(tail[0].1) + TailNames(tail[1..])
  }

  function PartsNames(parts: seq<Part>): set<string> {
    if parts == [] then {} else NameOf(parts[0].head) + TailNames(parts[0].tail) + PartsNames(parts[1..])
  }

  predicate TailKeyed(keys: Keys, bound: set<string>, tail: seq<(RelPattern, NodePattern)>)
    decreases |tail|
  {
    tail == [] || (NodeKeyed(keys, bound, tail[0].1) && TailKeyed(keys, bound + NameOf(tail[0].1), tail[1..]))
  }

  predicate PartKeyed(keys: Keys, bound: set<string>, part: Part) {
    NodeKeyed(keys, bound, part.head) && TailKeyed(keys, bound + NameOf(part.head), part.tail)
  }

  predicate PartsKeyed(keys: Keys, bound: set<string>, parts: seq<Part>)
    decreases |parts|
  {
    parts == []
    || (PartKeyed(keys, bound, parts[0])
        && PartsKeyed(keys, bound + (NameOf(parts[0].head) + TailNames(parts[0].tail)), parts[1..]))
  }

  predicate ClausesKeyed(keys: Keys, bound: set<string>, clauses: seq<Clause>)
    decreases |clauses|
  {
    clauses == []
    || (clauses[0].Create? ==>
        PartsKeyed(keys, bound, clauses[0].parts)
        && ClausesKeyed(keys, bound + PartsNames(clauses[0].parts), clauses[1..]))
  }

  /** `e` placed after earlier output that minted `anon` ids. */
  function After(e: Emit, created: set<Bytes>, anon: nat, out: seq<Obj>): Emit {
    Emit(e.vars, created + e.created, anon, out + e.out)
  }

  function AfterAll(r: Emitted, created: set<Bytes>, anon: nat, out: seq<Obj>): Emitted {
    if r.Err? then r else Ok(After(r.value, created, anon, out))
  }

  lemma NodeShift(cfg: Config, keys: Keys, e: Emit, node: NodePattern, created: set<Bytes>, anon: nat, out: seq<Obj>)
    requires NodeKeyed(keys, e.vars.Keys, node)
    ensures var r, r' := CreateNode(cfg, keys, e, node), CreateNode(cfg, keys, After(e, created, anon, out), node);
      && (r.Err? ==> r' == r)
      && (r.Ok? ==> r' == Ok((r.value.0, After(r.value.1, created, anon, out))))
      && (r.Ok? ==> r.value.1.vars.Keys == e.vars.Keys + NameOf(node))
  {
    if !IsReference(e, node) {
      var id := MintedId(cfg, keys, e.anon, node);
      if id.Some? {
        var objs := NodeObjects(cfg, node, id.value);
        assert out + (e.out + objs) == (out + e.out) + objs;
        assert created + (e.created + {id.value}) == (created + e.created) + {id.value};
      }
    }
  }

  lemma {:induction false} TailShift(cfg: Config, keys: Keys, e: Emit, subject: Bytes,
                                     tail: seq<(RelPattern, NodePattern)>, created: set<Bytes>, anon: nat, out: seq<Obj>)
    requires TailKeyed(keys, e.vars.Keys, tail)
    ensures var r := EmitTail(cfg, keys, e, subject, tail);
      && EmitTail(cfg, keys, After(e, created, anon, out), subject, tail) == AfterAll(r, created, anon, out)
      && (r.Ok? ==> r.value.vars.Keys == e.vars.Keys + TailNames(tail))
    decreases |tail|
  {
    if tail != [] {
      var (rel, node) := tail[0];
      NodeShift(cfg, keys, e, node, created, anon, out);
      var made := CreateNode(cfg, keys, e, node);
      if made.Ok? && !rel.dir.Either? {
        var (target, e') := made.value;
        var edge := if rel.dir.Outgoing? then EdgeObject(cfg, rel, subject, target)
                    else EdgeObject(cfg, rel, target, subject);
        if edge.Ok? {
          TailShift(cfg, keys, e'.(out := e'.out + [edge.value]), target, tail[1..], created, anon, out);
          assert out + (e'.out + [edge.value]) == (out + e'.out) + [edge.value];
        }
      }
    }
  }

  lemma PartShift(cfg: Config, keys: Keys, e: Emit, part: Part, created: set<Bytes>, anon: nat, out: seq<Obj>)
    requires PartKeyed(keys, e.vars.Keys, part)
    ensures var r := EmitPart(cfg, keys, e, part);
      && EmitPart(cfg, keys, After(e, created, anon, out), part) == AfterAll(r, created, anon, out)
      && (r.Ok? ==> r.value.vars.Keys == e.vars.Keys + (NameOf(part.head) + TailNames(part.tail)))
  {
    NodeShift(cfg, keys, e, part.head, created, anon, out);
    var made := CreateNode(cfg, keys, e, part.head);
    if made.Ok? {
      TailShift(cfg, keys, made.value.1, made.value.0, part.tail, created, anon, out);
    }
  }

  lemma {:induction false} PartsShift(cfg: Config, keys: Keys, e: Emit, parts: seq<Part>, created: set<Bytes>,
                                      anon: nat,
                                      out: seq<Obj>)
    requires PartsKeyed(keys, e.vars.Keys, parts)
    ensures var r := EmitParts(cfg, keys, e, parts);
      && EmitParts(cfg, keys, After(e, created, anon, out), parts) == AfterAll(r, created, anon, out)
      && (r.Ok? ==> r.value.vars.Keys == e.vars.Keys + PartsNames(parts))
    decreases |parts|
  {
    if parts != [] {
      PartShift(cfg, keys, e, parts[0], created, anon, out);
      var r := EmitPart(cfg, keys, e, parts[0]);
      if r.Ok? { PartsShift(cfg, keys, r.value, parts[1..], created, anon, out); }
    }
  }

  /** Keyed statements emit the same objects wherever they stand. */
  lemma {:induction false} ClausesShift(cfg: Config, keys: Keys, e: Emit, clauses: seq<Clause>, created: set<Bytes>,
                                        anon: nat, out: seq<Obj>)
    requires ClausesKeyed(keys, e.vars.Keys, clauses)
    ensures EmitClauses(cfg, keys, After(e, created, anon, out), clauses)
      == AfterAll(EmitClauses(cfg, keys, e, clauses), created, anon, out)
    decreases |clauses|
  {
    if clauses != [] && clauses[0].Create? {
      PartsShift(cfg, keys, e, clauses[0].parts, created, anon, out);
      var r := EmitParts(cfg, keys, e, clauses[0].parts);
      if r.Ok? { ClausesShift(cfg, keys, r.value, clauses[1..], created, anon, out); }
    }
  }

  // ---------------------------------------------------------------------------
  // Statements that only link what they matched
  // ---------------------------------------------------------------------------

  predicate PartLinks(bound: set<string>, part: Part) {
    IsBareRef(bound, part.head) && forall i | 0 <= i < |part.tail| :: IsBareRef(bound, part.tail[i].1)
  }

  predicate ClauseLinks(bound: set<string>, c: Clause) {
    c.Create? ==> forall i | 0 <= i < |c.parts| :: PartLinks(bound, c.parts[i])
  }

  /** Every node of the CREATE part is a bare reference to a matched variable. */
  predicate LinksOnly(bound: set<string>, clauses: seq<Clause>) {
    forall i | 0 <= i < |clauses| :: ClauseLinks(bound, clauses[i])
  }

  lemma {:induction false} TailLinks(cfg: Config, keys: Keys, e: Emit, subject: Bytes,
                                     tail: seq<(RelPattern, NodePattern)>)
    requires forall i | 0 <= i < |tail| :: IsBareRef(e.vars.Keys, tail[i].1)
    ensures TailKeyed(keys, e.vars.Keys, tail) && TailNames(tail) <= e.vars.Keys
    ensures var r := EmitTail(cfg, keys, e, subject, tail);
      r.Ok? ==> r.value.created == e.created && r.value.vars == e.vars
    decreases |tail|
  {
    if tail != [] {
      var (rel, node) := tail[0];
      assert IsBareRef(e.vars.Keys, node);
      assert e.vars.Keys + NameOf(node) == e.vars.Keys;
      var target := e.vars[node.name.value];
      var edge := if rel.dir.Outgoing? then EdgeObject(cfg, rel, subject, target)
                  else EdgeObject(cfg, rel, target, subject);
      TailLinks(cfg, keys, if edge.Ok? then e.(out := e.out + [edge.value]) else e, target, tail[1..]);
    }
  }

  lemma {:induction false} PartsLinks(cfg: Config, keys: Keys, e: Emit, parts: seq<Part>)
    requires forall i | 0 <= i < |parts| :: PartLinks(e.vars.Keys, parts[i])
    ensures PartsKeyed(keys, e.vars.Keys, parts) && PartsNames(parts) <= e.vars.Keys
    ensures var r := EmitParts(cfg, keys, e, parts);
      r.Ok? ==> r.value.created == e.created && r.value.vars == e.vars
    decreases |parts|
  {
    if parts != [] {
      var part := parts[0];
      assert PartLinks(e.vars.Keys, part);
      TailLinks(cfg, keys, e, e.vars[part.head.name.value], part.tail);
      assert e.vars.Keys + NameOf(part.head) == e.vars.Keys;
      assert e.vars.Keys + (NameOf(part.head) + TailNames(part.tail)) == e.vars.Keys;
      var r := EmitPart(cfg, keys, e, part);
      PartsLinks(cfg, keys, if r.Ok? then r.value else e, parts[1..]);
    }
  }

  /** Linking creates no node. */
  lemma {:induction false} LinksCreateNothing(cfg: Config, keys: Keys, e: Emit, clauses: seq<Clause>)
    requires LinksOnly(e.vars.Keys, clauses)
    ensures ClausesKeyed(keys, e.vars.Keys, clauses)
    ensures var r := EmitClauses(cfg, keys, e, clauses); r.Ok? ==> r.value.created == e.created
    decreases |clauses|
  {
    if clauses != [] && clauses[0].Create? {
      assert ClauseLinks(e.vars.Keys, clauses[0]);
      PartsLinks(cfg, keys, e, clauses[0].parts);
      assert e.vars.Keys + PartsNames(clauses[0].parts) == e.vars.Keys;
      var r := EmitParts(cfg, keys, e, clauses[0].parts);
      assert forall i | 0 <= i < |clauses[1..]| :: clauses[1..][i] == clauses[i + 1];
      LinksCreateNothing(cfg, keys, if r.Ok? then r.value else e, clauses[1..]);
    }
  }
}
