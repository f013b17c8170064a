/**
 * Namespace tables and the deltas commits carry: applying deltas one by one, and the one-step
 * union applied when a whole batch is installed.
 */
module Namespaces {
  import opened Ledger

  type NsTable = map<nat, string>

  /** No prefix is bound to two codes. */
  ghost predicate OneToOne(ns: NsTable) {
    forall a, b | a in ns && b in ns && ns[a] == ns[b] :: a == b
  }

  /** A delta extends the table: shared codes agree and the union stays one-to-one. */
  ghost predicate Compatible(ns: NsTable, delta: NsTable) {
    && (forall c | c in ns && c in delta :: ns[c] == delta[c])
    && OneToOne(ns + delta)
  }

  /**
   * `NamespaceCodes::merge_delta` and the table half of `apply_envelope_deltas`: entries are
   * taken in an arbitrary order, each checked in both directions against the table so far.
   */
  method MergeDelta(ns: NsTable, delta: NsTable) returns (r: Option<NsTable>)
    requires OneToOne(ns)
    ensures r.Some? <==> Compatible(ns, delta)
    ensures r.Some? ==> r.value == ns + delta && OneToOne(r.value)
  {
    var table := ns;
    var todo := delta.Keys;
    ghost var done: set<nat> := {};
    while todo != {}
      invariant todo + done == delta.Keys && todo !! done
      invariant OneToOne(table)
      invariant table.Keys == ns.Keys + done
      invariant forall c | c in ns :: table[c] == ns[c]
      invariant forall c | c in done :: table[c] == delta[c]
      decreases todo
    {
      var code :| code in todo;
      var prefix := delta[code];
      if code in table {
        if table[code] != prefix {
          assert code in ns && ns[code] != delta[code];
          return None;
        }
      } else if exists other | other in table :: table[other] == prefix {
        ghost var other :| other in table && table[other] == prefix;
        SamePrefixTwice(ns, delta, code, other);
        return None;
      } else {
        table := table[code := prefix];
      }
      todo := todo - {code};
      done := done + {code};
    }
    assert table == ns + delta;
    return Some(table);
  }

  lemma SamePrefixTwice(ns: NsTable, delta: NsTable, code: nat, other: nat)
    requires code in delta && other != code
    requires (other in ns && ns[other] == delta[code]) || (other in delta && delta[other] == delta[code])
    ensures !Compatible(ns, delta)
  {
    var union := ns + delta;
    assert union[code] == delta[code];
    assert (forall c | c in ns && c in delta :: ns[c] == delta[c]) ==> union[other] == delta[code];
  }

  /** The table after applying each delta in order, or None at the first conflict. */
  ghost function Sequential(ns: NsTable, deltas: seq<NsTable>): Option<NsTable>
    decreases deltas
  {
    if deltas == [] then Some(ns)
    else if Compatible(ns, deltas[0]) then Sequential(ns + deltas[0], deltas[1..])
    else None
  }

  /** The one-step union built by `apply_pushed_commits_to_state`: the first commit naming a code wins. */
  function FirstWins(deltas: seq<NsTable>): NsTable {
    if deltas == [] then map[] else FirstWins(deltas[1..]) + deltas[0]
  }

  /** The loop that builds the union. */
  method MergeDeltasFirstWins(deltas: seq<NsTable>) returns (merged: NsTable)
    ensures merged == FirstWins(deltas)
  {
    merged := map[];
    for i := 0 to |deltas|
      invariant merged == FirstWins(deltas[..i])
    {
      merged := deltas[i] + merged;
      FirstWinsSnoc(deltas[..i], deltas[i]);
      assert deltas[..i + 1] == deltas[..i] + [deltas[i]];
    }
    assert deltas[..|deltas|] == deltas;
  }

  lemma UnionAssoc(a: NsTable, b: NsTable, c: NsTable)
    ensures (a + b) + c == a + (b + c)
  {
  }

  lemma {:induction false} FirstWinsSnoc(ds: seq<NsTable>, d: NsTable)
    ensures FirstWins(ds + [d]) == d + FirstWins(ds)
  {
    if ds == [] {
      assert ds + [d] == [d] && [d][1..] == [];
      assert map[] + d == d + map[];
    } else {
      assert (ds + [d])[1..] == ds[1..] + [d];
      FirstWinsSnoc(ds[1..], d);
      UnionAssoc(d, FirstWins(ds[1..]), ds[0]);
    }
  }

  /** Where two deltas and the table agree, the order of union does not matter. */
  lemma AgreeingUnions(ns: NsTable, d: NsTable, f: NsTable)
    requires forall c | c in f && c in ns + d :: f[c] == (ns + d)[c]
    ensures (ns + d) + f == ns + (f + d)
  {
  }

  /**
   * The bulk form agrees with the sequential one: when every commit's delta is accepted in
   * turn, the first-wins union is accepted in one step, gives the same table, changes no
   * entry of the base table and keeps codes and prefixes one-to-one.
   */
  lemma {:induction false} BulkNamespacesAgree(ns: NsTable, deltas: seq<NsTable>)
    requires OneToOne(ns)
    requires Sequential(ns, deltas).Some?
    ensures Compatible(ns, FirstWins(deltas))
    ensures Sequential(ns, deltas).value == ns + FirstWins(deltas)
    ensures OneToOne(ns + FirstWins(deltas))
    ensures forall c | c in ns :: c in Sequential(ns, deltas).value && Sequential(ns, deltas).value[c] == ns[c]
    decreases deltas
  {
    if deltas == [] {
      assert ns + map[] == ns;
    } else {
      var d, f := deltas[0], FirstWins(deltas[1..]);
      BulkNamespacesAgree(ns + d, deltas[1..]);
      AgreeingUnions(ns, d, f);
      forall c | c in ns && c in f + d ensures ns[c] == (f + d)[c] {
        if c !in d { assert (ns + d)[c] == f[c]; }
      }
    }
  }

  /**
   * The converse fails: incremental import runs only the bulk form, and the bulk form accepts a
   * batch whose second commit rebinds a code that the push path rejects.
   */
  lemma BulkAcceptsARebinding()
    ensures var deltas: seq<NsTable> := [map[20 := "a"], map[20 := "b"]];
      && Compatible(map[], FirstWins(deltas))
      && Sequential(map[], deltas).None?
  {
    var deltas: seq<NsTable> := [map[20 := "a"], map[20 := "b"]];
    assert deltas[1..] == [map[20 := "b"]];
    assert FirstWins(deltas[1..][1..]) == map[];
    assert FirstWins(deltas) == map[20 := "a"];
    var ns: NsTable := map[] + deltas[0];
    assert ns[20] == "a" && deltas[1][20] == "b";
    assert !Compatible(ns, deltas[1]);
  }

  /** Every entry of every delta is in the table as given. */
  ghost predicate KeepsEvery(table: NsTable, deltas: seq<NsTable>) {
    forall i, c | 0 <= i < |deltas| && c in deltas[i] :: c in table && table[c] == deltas[i][c]
  }

  lemma SequentialKeepsEvery(ns: NsTable, deltas: seq<NsTable>)
    requires OneToOne(ns) && Sequential(ns, deltas).Some?
    ensures KeepsEvery(Sequential(ns, deltas).value, deltas)
    decreases deltas
  {
    if deltas != [] {
      var d, rest := deltas[0], deltas[1..];
      SequentialKeepsEvery(ns + d, rest);
      BulkNamespacesAgree(ns + d, rest);
      forall i, c | 0 <= i < |deltas| && c in deltas[i]
        ensures c in Sequential(ns, deltas).value && Sequential(ns, deltas).value[c] == deltas[i][c]
      {
        if i > 0 { assert deltas[i] == rest[i - 1]; }
      }
    }
  }

  lemma DeltaInUnion(ns: NsTable, d: NsTable, f: NsTable)
    requires Compatible(ns, f + d)
    ensures forall c | c in ns + d :: (ns + (f + d))[c] == (ns + d)[c]
    ensures Compatible(ns, d)
  {
    var all := ns + (f + d);
    forall c | c in ns + d ensures all[c] == (ns + d)[c] {
      if c !in d { assert c in f ==> (f + d)[c] == f[c]; }
    }
    assert forall c | c in d && c in ns :: (f + d)[c] == d[c];
    assert forall a, b | a in ns + d && b in ns + d && (ns + d)[a] == (ns + d)[b] :: all[a] == all[b];
  }

  lemma {:induction false} KeptDeltasApplyInOrder(ns: NsTable, deltas: seq<NsTable>)
    requires OneToOne(ns) && Compatible(ns, FirstWins(deltas)) && KeepsEvery(ns + FirstWins(deltas), deltas)
    ensures Sequential(ns, deltas).Some?
    decreases deltas
  {
    if deltas != [] {
      var d, rest, all := deltas[0], deltas[1..], ns + FirstWins(deltas);
      DeltaInUnion(ns, d, FirstWins(rest));
      KeepsEveryTail(all, deltas);
      forall c | c in FirstWins(rest) && c in ns + d ensures FirstWins(rest)[c] == (ns + d)[c] {
        var i := FirstWinsSource(rest, c);
      }
      AgreeingUnions(ns, d, FirstWins(rest));
      KeptDeltasApplyInOrder(ns + d, rest);
    }
  }

  /** The bulk form is the sequential one exactly when its table keeps every delta as given. */
  lemma SequentialIffBulkKeepsEveryDelta(ns: NsTable, deltas: seq<NsTable>)
    requires OneToOne(ns)
    ensures Sequential(ns, deltas).Some? <==>
      Compatible(ns, FirstWins(deltas)) && KeepsEvery(ns + FirstWins(deltas), deltas)
  {
    if Sequential(ns, deltas).Some? {
      BulkNamespacesAgree(ns, deltas);
      SequentialKeepsEvery(ns, deltas);
    } else if Compatible(ns, FirstWins(deltas)) && KeepsEvery(ns + FirstWins(deltas), deltas) {
      KeptDeltasApplyInOrder(ns, deltas);
    }
  }

  lemma KeepsEveryTail(table: NsTable, deltas: seq<NsTable>)
    requires deltas != [] && KeepsEvery(table, deltas)
    ensures KeepsEvery(table, deltas[1..])
  {
    forall i, c | 0 <= i < |deltas[1..]| && c in deltas[1..][i]
      ensures c in table && table[c] == deltas[1..][i][c]
    {
      assert deltas[1..][i] == deltas[i + 1];
    }
  }

  lemma {:induction false} FirstWinsSource(ds: seq<NsTable>, c: nat) returns (i: nat)
    requires c in FirstWins(ds)
    ensures i < |ds| && c in ds[i] && ds[i][c] == FirstWins(ds)[c]
  {
    if c in ds[0] {
      i := 0;
    } else {
      i := FirstWinsSource(ds[1..], c);
      i := i + 1;
    }
  }

  /** The first delta that names a code binds it. */
  ghost predicate BoundFirst(ds: seq<NsTable>, c: nat, prefix: string) {
    exists i :: 0 <= i < |ds| && c in ds[i] && ds[i][c] == prefix && forall k | 0 <= k < i :: c !in ds[k]
  }

  /** What the union holds: each code as the first delta that names it has it. */
  lemma {:induction false} FirstWinsIff(ds: seq<NsTable>, c: nat, prefix: string)
    ensures c in FirstWins(ds) && FirstWins(ds)[c] == prefix <==> BoundFirst(ds, c, prefix)
  {
    if ds != [] {
      var rest := ds[1..];
      FirstWinsIff(rest, c, prefix);
      assert forall i | 0 < i < |ds| :: ds[i] == rest[i - 1];
      if c !in ds[0] && BoundFirst(rest, c, prefix) {
        var i :| 0 <= i < |rest| && c in rest[i] && rest[i][c] == prefix && forall k | 0 <= k < i :: c !in rest[k];
        assert c in ds[i + 1];
      }
      if c !in ds[0] && BoundFirst(ds, c, prefix) {
        var i :| 0 <= i < |ds| && c in ds[i] && ds[i][c] == prefix && forall k | 0 <= k < i :: c !in ds[k];
        assert c in rest[i - 1];
      }
    }
  }

  lemma {:induction false} SequentialSnoc(ns: NsTable, ds: seq<NsTable>, d: NsTable)
    ensures Sequential(ns, ds + [d]) ==
      match Sequential(ns, ds)
      case None => None
      case Some(t) => if Compatible(t, d) then Some(t + d) else None
    decreases ds
  {
    if ds == [] {
      assert ds + [d] == [d] && [d][1..] == [];
    } else if Compatible(ns, ds[0]) {
      assert (ds + [d])[1..] == ds[1..] + [d];
      SequentialSnoc(ns + ds[0], ds[1..], d);
    }
  }

  lemma {:induction false} SequentialPrefix(ns: NsTable, ds: seq<NsTable>, n: nat)
    requires n <= |ds| && Sequential(ns, ds).Some?
    ensures Sequential(ns, ds[..n]).Some?
    decreases ds
  {
    if n > 0 {
      assert ds[..n][1..] == ds[1..][..n - 1];
      SequentialPrefix(ns + ds[0], ds[1..], n - 1);
    }
  }
}
