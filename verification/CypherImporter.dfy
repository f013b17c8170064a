/**
 * The importer as it runs: fields updated pass by pass, each pass a scan over the statements.
 */
module CypherImporter {
  import opened Ledger
  import opened Octets
  import opened Identity
  import opened CypherImport
  import opened ImportOrder

  method NodeIdFromProps(cfg: Config, ks: seq<Name>, kind: Name, props: Props) returns (id: Option<Bytes>)
    ensures var values := KeyValues(ks, props);
      id == if values.Some? then Some(NodeId(cfg.vocab, kind, values.value)) else None
  {
    var path := Segment(kind);
    ghost var values: seq<Bytes> := [];
    for i := 0 to |ks|
      invariant KeyValues(ks[..i], props) == Some(values) && path == NodePath(kind, values)
    {
      KeyValuesPrefix(ks, props, i + 1);
      assert ks[..i + 1][..i] == ks[..i];
      var entry := Find(props, ks[i]);
      if entry.None? || !entry.value.Scalar? { return None; }
      path := path + [SLASH] + Segment(entry.value.text);
      ghost var values' := values + [entry.value.text];
      assert values'[..|values|] == values;
      values := values';
    }
    assert ks[..|ks|] == ks;
    return Some(Prefix(cfg.vocab) + path);
  }

  lemma {:induction false} KeyValuesPrefix(ks: seq<Name>, props: Props, n: nat)
    requires n <= |ks|
    ensures KeyValues(ks[..n], props).None? ==> KeyValues(ks, props).None?
    decreases |ks|
  {
    if n == |ks| {
      assert ks[..n] == ks;
    } else {
      KeyValuesPrefix(ks[..|ks| - 1], props, n);
      assert ks[..|ks| - 1][..n] == ks[..n];
    }
  }

  class Importer {
    const cfg: Config
    const hash: Bytes -> nat
    var matchKeys: Keys
    var nodeIds: set<nat>
    var anonSeq: nat
    var edgesSkipped: nat
    ghost var created: set<Bytes>

    /** The stored hashes are those of the ids created so far. */
    ghost predicate Valid()
      reads this
    {
      nodeIds == set c | c in created :: hash(c)
    }

    constructor (cfg: Config, hash: Bytes -> nat)
      ensures Valid() && this.cfg == cfg && this.hash == hash
      ensures matchKeys == map[] && anonSeq == 0 && edgesSkipped == 0 && created == {}
    {
      this.cfg, this.hash := cfg, hash;
      matchKeys, nodeIds, anonSeq, edgesSkipped, created := map[], {}, 0, 0, {};
    }

    /** Pass 1. */
    method LearnKeys(ss: seq<Statement>) returns (failed: Option<ImportError>)
      modifies this`matchKeys
      ensures Learn(old(matchKeys), Sightings(ss)) == if failed.Some? then Err(failed.value) else Ok(matchKeys)
    {
      for i := 0 to |ss|
        invariant Learn(old(matchKeys), Sightings(ss)) == Learn(matchKeys, Sightings(ss[i..]))
      {
        assert ss[i..][1..] == ss[i + 1..];
        ghost var later := Sightings(ss[i + 1..]);
        if ss[i].BadMatch? { return Some(Unsupported); }
        if ss[i].Match? {
          failed := LearnNodes(ss[i].nodes, later);
          if failed.Some? { return; }
        } else {
          assert Sightings(ss[i..]) == [] + later == later;
        }
      }
      assert ss[|ss|..] == [];
      return None;
    }

    /** The matched nodes of one statement; `later` is what the following statements will show. */
    method LearnNodes(nodes: seq<NodePattern>, ghost later: seq<Sighting>) returns (failed: Option<ImportError>)
      modifies this`matchKeys
      ensures Learn(old(matchKeys), SightingsOf(Match(nodes, [])) + later)
        == if failed.Some? then Err(failed.value) else Learn(matchKeys, later)
    {
      ghost var all := SightingsOf(Match(nodes, []));
      assert all[0..] == all;
      for i := 0 to |nodes|
        invariant Learn(old(matchKeys), all + later) == Learn(matchKeys, all[i..] + later)
      {
        ghost var rest := all[i..] + later;
        assert rest[0] == SightingOf(nodes[i]) && rest[1..] == all[i + 1..] + later;
        if !Matchable(nodes[i]) { return Some(Unsupported); }
        var kind, ks := nodes[i].kinds[0], KeyNames(nodes[i].props.value);
        if kind !in matchKeys {
          matchKeys := matchKeys[kind := ks];
        } else if matchKeys[kind] != ks {
          return Some(ConflictingKeys(kind));
        }
      }
      assert all[|nodes|..] + later == later;
      return None;
    }

    /** A node pattern inside CREATE. */
    method CreateNode(node: NodePattern, vars: map<string, Bytes>, out: seq<Obj>)
      returns (r: Result<Bytes, ImportError>, vars': map<string, Bytes>, out': seq<Obj>)
      requires Valid()
      modifies this`nodeIds, this`anonSeq, this`created
      ensures Valid()
      ensures CypherImport.CreateNode(cfg, matchKeys, Emit(vars, old(created), old(anonSeq), out), node)
        == if r.Err? then Err(r.error) else Ok((r.value, Emit(vars', created, anonSeq, out')))
    {
      vars', out' := vars, out;
      if node.name.Some? && node.name.value in vars {
        if node.kinds != [] || node.props.Some? { return Err(Unsupported), vars, out; }
        return Ok(vars[node.name.value]), vars, out;
      }
      var id: Bytes;
      if Keyed(matchKeys, node) {
        var derived := NodeIdFromProps(cfg, matchKeys[node.kinds[0]], node.kinds[0], node.props.value);
        if derived.None? { return Err(Unsupported), vars, out; }
        id := derived.value;
      } else {
        anonSeq := anonSeq + 1;
        id := AnonId(cfg, if node.kinds == [] then None else Some(node.kinds[0]), anonSeq);
      }
      nodeIds := nodeIds + {hash(id)};
      created := created + {id};
      if node.name.Some? { vars' := vars[node.name.value := id]; }
      if node.kinds != [] || node.props.Some? {
        if node.props.Some? && !AllLiteral(node.props.value) { return Err(Unsupported), vars, out; }
        var props := if node.props.Some? then Written(cfg, node.props.value) else [];
        out' := out + [NodeObj(id, Named(cfg, node.kinds), props)];
      } else {
        assert out + [] == out;
      }
      return Ok(id), vars', out';
    }

    /** One path of a CREATE pattern. */
    method EmitPath(part: Part, vars: map<string, Bytes>, out: seq<Obj>)
      returns (failed: Option<ImportError>, vars': map<string, Bytes>, out': seq<Obj>)
      requires Valid()
      modifies this`nodeIds, this`anonSeq, this`created
      ensures Valid()
      ensures EmitPart(cfg, matchKeys, Emit(vars, old(created), old(anonSeq), out), part)
        == if failed.Some? then Err(failed.value) else Ok(Emit(vars', created, anonSeq, out'))
    {
      vars', out' := vars, out;
      if part.isPath { return Some(Unsupported), vars, out; }
      var subject;
      subject, vars', out' := CreateNode(part.head, vars, out);
      if subject.Err? { return Some(subject.error), vars', out'; }
      var from := subject.value;
      ghost var whole := EmitTail(cfg, matchKeys, Emit(vars', created, anonSeq, out'), from, part.tail);
      assert part.tail[0..] == part.tail;
      for i := 0 to |part.tail|
        invariant Valid()
        invariant EmitTail(cfg, matchKeys, Emit(vars', created, anonSeq, out'), from, part.tail[i..]) == whole
      {
        assert part.tail[i..][1..] == part.tail[i + 1..];
        var (rel, node) := part.tail[i];
        var target;
        target, vars', out' := CreateNode(node, vars', out');
        if target.Err? { return Some(target.error), vars', out'; }
        if rel.dir.Either? { return Some(Unsupported), vars', out'; }
        var edge := if rel.dir.Outgoing? then EdgeObject(cfg, rel, from, target.value)
                    else EdgeObject(cfg, rel, target.value, from);
        if edge.Err? { return Some(edge.error), vars', out'; }
        out' := out' + [edge.value];
        from := target.value;
      }
      assert part.tail[|part.tail|..] == [];
      return None, vars', out';
    }

    /** Every CREATE clause of a statement. */
    method EmitUpdateCreates(clauses: seq<Clause>, vars: map<string, Bytes>, out: seq<Obj>)
      returns (failed: Option<ImportError>, ghost vars': map<string, Bytes>, out': seq<Obj>)
      requires Valid()
      modifies this`nodeIds, this`anonSeq, this`created
      ensures Valid()
      ensures EmitClauses(cfg, matchKeys, Emit(vars, old(created), old(anonSeq), out), clauses)
        == if failed.Some? then Err(failed.value) else Ok(Emit(vars', created, anonSeq, out'))
    {
      var bindings := vars;
      out' := out;
      ghost var whole := EmitClauses(cfg, matchKeys, Emit(vars, created, anonSeq, out), clauses);
      assert clauses[0..] == clauses;
      for i := 0 to |clauses|
        invariant Valid()
        invariant EmitClauses(cfg, matchKeys, Emit(bindings, created, anonSeq, out'), clauses[i..]) == whole
      {
        assert clauses[i..][1..] == clauses[i + 1..];
        if clauses[i].OtherClause? { return Some(Unsupported), bindings, out'; }
        var parts := clauses[i].parts;
        ghost var emitted := EmitParts(cfg, matchKeys, Emit(bindings, created, anonSeq, out'), parts);
        assert parts[0..] == parts;
        for j := 0 to |parts|
          invariant Valid()
          invariant EmitParts(cfg, matchKeys, Emit(bindings, created, anonSeq, out'), parts[j..]) == emitted
        {
          assert parts[j..][1..] == parts[j + 1..];
          failed, bindings, out' := EmitPath(parts[j], bindings, out');
          if failed.Some? { return failed, bindings, out'; }
        }
        assert parts[|parts|..] == [];
      }
      assert clauses[|clauses|..] == [];
      return None, bindings, out';
    }

    /** Pass 2: what it writes and which nodes it creates are those of `NodesPass`. */
    method WriteNodes(ss: seq<Statement>, out: seq<Obj>) returns (failed: Option<ImportError>, out': seq<Obj>)
      requires Valid()
      modifies this`nodeIds, this`anonSeq, this`created
      ensures Valid()
      ensures var r := NodesPass(cfg, matchKeys, Emit(map[], old(created), old(anonSeq), out), ss);
        if failed.Some? then r == Err(failed.value)
        else r.Ok? && r.value.created == created && r.value.anon == anonSeq && r.value.out == out'
    {
      out' := out;
      ghost var vars: map<string, Bytes> := map[];
      ghost var whole := NodesPass(cfg, matchKeys, Emit(vars, created, anonSeq, out), ss);
      assert ss[0..] == ss;
      for i := 0 to |ss|
        invariant Valid()
        invariant NodesPass(cfg, matchKeys, Emit(vars, created, anonSeq, out'), ss[i..]) == whole
      {
        assert ss[i..][1..] == ss[i + 1..];
        if ss[i].Other? || ss[i].BadCreate? { return Some(Unsupported), out'; }
        vars := map[];
        if ss[i].CreateOnly? {
          failed, vars, out' := EmitUpdateCreates(ss[i].writes, map[], out');
          if failed.Some? { return; }
        }
      }
      assert ss[|ss|..] == [];
      return None, out';
    }

    /** Bind each matched variable to its key-derived id, and say whether all of them are known. */
    method BindMatched(nodes: seq<NodePattern>)
      returns (failed: Option<ImportError>, vars: map<string, Bytes>, allKnown: bool)
      requires Valid()
      ensures var b := BindAll(cfg, matchKeys, UNBOUND, nodes);
        if failed.Some? then b == Err(failed.value)
        else b.Ok? && vars == b.value.vars && allKnown == AllKnown(hash, created, b.value.ids)
    {
      vars, allKnown := map[], true;
      ghost var ids: seq<Bytes> := [];
      assert nodes[0..] == nodes;
      for i := 0 to |nodes|
        invariant BindAll(cfg, matchKeys, Bound(vars, ids), nodes[i..]) == BindAll(cfg, matchKeys, UNBOUND, nodes)
        invariant allKnown == AllKnown(hash, created, ids)
      {
        assert nodes[i..][1..] == nodes[i + 1..];
        var node := nodes[i];
        if !Matchable(node) || node.name.None? || node.kinds[0] !in matchKeys { return Some(Unsupported), vars, false; }
        var id := NodeIdFromProps(cfg, matchKeys[node.kinds[0]], node.kinds[0], node.props.value);
        if id.None? { return Some(Unsupported), vars, false; }
        AllKnownSnoc(hash, created, ids, id.value);
        allKnown := allKnown && hash(id.value) in nodeIds;
        vars := vars[node.name.value := id.value];
        ids := ids + [id.value];
      }
      assert nodes[|nodes|..] == [];
      return None, vars, allKnown;
    }

    /** Pass 3: what it writes and how many statements it skips are those of `EdgesPass`. */
    method WriteEdges(ss: seq<Statement>, out: seq<Obj>) returns (failed: Option<ImportError>, out': seq<Obj>)
      requires Valid()
      modifies this`nodeIds, this`anonSeq, this`created, this`edgesSkipped
      ensures Valid()
      ensures var start := Progress(Emit(map[], old(created), old(anonSeq), out), old(edgesSkipped));
        var r := EdgesPass(cfg, matchKeys, hash, start, ss);
        if failed.Some? then r == Err(failed.value)
        else
          && r.Ok? && r.value.emit.created == created && r.value.emit.anon == anonSeq && r.value.emit.out == out'
          && r.value.skipped == edgesSkipped
    {
      out' := out;
      ghost var vars: map<string, Bytes> := map[];
      ghost var whole := EdgesPass(cfg, matchKeys, hash, Progress(Emit(vars, created, anonSeq, out), edgesSkipped), ss);
      assert ss[0..] == ss;
      for i := 0 to |ss|
        invariant Valid()
        invariant whole ==
          EdgesPass(cfg, matchKeys, hash, Progress(Emit(vars, created, anonSeq, out'), edgesSkipped), ss[i..])
      {
        assert ss[i..][1..] == ss[i + 1..];
        if ss[i].BadMatch? { return Some(Unsupported), out'; }
        if ss[i].Match? {
          var bindings, allKnown;
          failed, bindings, allKnown := BindMatched(ss[i].nodes);
          if failed.Some? { return; }
          if !allKnown {
            edgesSkipped := edgesSkipped + 1;
          } else {
            failed, vars, out' := EmitUpdateCreates(ss[i].writes, bindings, out');
            if failed.Some? { return; }
          }
        }
      }
      assert ss[|ss|..] == [];
      return None, out';
    }
  }

  lemma AllKnownSnoc(hash: Bytes -> nat, created: set<Bytes>, ids: seq<Bytes>, id: Bytes)
    ensures AllKnown(hash, created, ids + [id]) <==> AllKnown(hash, created, ids) && Known(hash, created, id)
  {
    var all := ids + [id];
    assert all[|ids|] == id && forall i | 0 <= i < |ids| :: all[i] == ids[i];
  }

  /** `cypher_to_jsonld`: the three passes in turn over one script. */
  method Convert(cfg: Config, hash: Bytes -> nat, ss: seq<Statement>)
    returns (r: Result<(seq<Obj>, nat), ImportError>)
    ensures var whole := Import(cfg, hash, ss);
      if r.Err? then whole == Err(r.error)
      else whole.Ok? && r.value == (whole.value.emit.out, whole.value.skipped)
  {
    var importer := new Importer(cfg, hash);
    var failed := importer.LearnKeys(ss);
    if failed.Some? { return Err(failed.value); }
    var out;
    failed, out := importer.WriteNodes(ss, []);
    if failed.Some? { return Err(failed.value); }
    failed, out := importer.WriteEdges(ss, out);
    if failed.Some? { return Err(failed.value); }
    return Ok((out, importer.edgesSkipped));
  }
}
