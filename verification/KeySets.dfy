/**
 * The key names of a matched node, sorted and without duplicates, stand for the set of its property
 * names: two nodes have the same list exactly when they have the same set.
 */
module KeySets {
  import opened Octets
  import opened CypherImport

  function Names(props: Props): set<Name> {
    set i | 0 <= i < |props| :: props[i].0
  }

  lemma {:induction false} LessIrreflexive(a: Bytes)
    ensures !Less(a, a)
  {
    if a != [] { LessIrreflexive(a[1..]); }
  }

  lemma {:induction false} LessTransitive(a: Bytes, b: Bytes, c: Bytes)
    requires Less(a, b) && Less(b, c)
    ensures Less(a, c)
  {
    if a != [] && a[0] == b[0] == c[0] { LessTransitive(a[1..], b[1..], c[1..]); }
  }

  lemma {:induction false} LessTotal(a: Bytes, b: Bytes)
    ensures a == b || Less(a, b) || Less(b, a)
  {
    if a != [] && b != [] && a[0] == b[0] {
      LessTotal(a[1..], b[1..]);
      if a[1..] == b[1..] { assert a == [a[0]] + a[1..] == b; }
    }
  }

  ghost predicate Below(x: Name, ns: seq<Name>) {
    forall n | n in ns :: Less(x, n)
  }

  /** Strictly increasing: sorted, and nothing twice. */
  ghost predicate Increasing(ns: seq<Name>) {
    ns == [] || (Below(ns[0], ns[1..]) && Increasing(ns[1..]))
  }

  lemma {:induction false} InsertHas(x: Name, ns: seq<Name>, n: Name)
    ensures n in Insert(x, ns) <==> n == x || n in ns
  {
    if !(ns == [] || Less(x, ns[0]) || x == ns[0]) {
      InsertHas(x, ns[1..], n);
      assert ns == [ns[0]] + ns[1..];
    }
  }

  lemma {:induction false} InsertIncreasing(x: Name, ns: seq<Name>)
    requires Increasing(ns)
    ensures Increasing(Insert(x, ns))
  {
    if ns == [] {
      assert Insert(x, ns)[1..] == [];
    } else if Less(x, ns[0]) {
      assert Insert(x, ns)[1..] == ns;
      forall n | n in ns ensures Less(x, n) {
        if n != ns[0] {
          assert n in ns[1..];
          LessTransitive(x, ns[0], n);
        }
      }
    } else if x != ns[0] {
      LessTotal(x, ns[0]);
      InsertIncreasing(x, ns[1..]);
      assert Insert(x, ns)[1..] == Insert(x, ns[1..]);
      forall n | n in Insert(x, ns[1..]) ensures Less(ns[0], n) { InsertHas(x, ns[1..], n); }
    }
  }

  lemma {:induction false} KeyNamesHas(props: Props, n: Name)
    ensures Increasing(KeyNames(props))
    ensures n in KeyNames(props) <==> n in Names(props)
  {
    if props != [] {
      KeyNamesHas(props[1..], n);
      InsertIncreasing(props[0].0, KeyNames(props[1..]));
      InsertHas(props[0].0, KeyNames(props[1..]), n);
      if n in Names(props) {
        var i :| 0 <= i < |props| && props[i].0 == n;
        if i > 0 { assert props[1..][i - 1] == props[i]; }
      }
      if n in Names(props[1..]) {
        var i :| 0 <= i < |props[1..]| && props[1..][i].0 == n;
        assert props[i + 1].0 == n;
      }
    }
  }

  lemma SameFirst(a: seq<Name>, b: seq<Name>)
    requires Increasing(a) && Increasing(b) && a != [] && b != []
    requires a[0] in b && b[0] in a
    ensures a[0] == b[0]
  {
    if a[0] != b[0] {
      assert a[0] in b[1..] && b[0] in a[1..];
      LessTransitive(a[0], b[0], a[0]);
      LessIrreflexive(a[0]);
    }
  }

  lemma {:induction false} IncreasingUnique(a: seq<Name>, b: seq<Name>)
    requires Increasing(a) && Increasing(b) && forall n :: n in a <==> n in b
    ensures a == b
    decreases |a|
  {
    assert a != [] ==> a[0] in b;
    assert b != [] ==> b[0] in a;
    if a != [] && b != [] {
      assert a[0] in a && b[0] in b;
      SameFirst(a, b);
      forall n ensures n in a[1..] <==> n in b[1..] {
        RestHas(a, n);
        RestHas(b, n);
      }
      IncreasingUnique(a[1..], b[1..]);
      assert a == [a[0]] + a[1..] && b == [b[0]] + b[1..];
    }
  }

  lemma RestHas(ns: seq<Name>, n: Name)
    requires Increasing(ns) && ns != []
    ensures n in ns[1..] <==> n in ns && n != ns[0]
  {
    assert ns == [ns[0]] + ns[1..];
    LessIrreflexive(ns[0]);
  }

  /** Key lists are equal exactly when the property names are the same set. */
  lemma KeyNamesIff(p: Props, q: Props)
    ensures KeyNames(p) == KeyNames(q) <==> Names(p) == Names(q)
  {
    KeyNamesHas(p, []);
    KeyNamesHas(q, []);
    forall n ensures n in KeyNames(p) <==> n in Names(p) { KeyNamesHas(p, n); }
    forall n ensures n in KeyNames(q) <==> n in Names(q) { KeyNamesHas(q, n); }
    if Names(p) == Names(q) {
      IncreasingUnique(KeyNames(p), KeyNames(q));
    } else {
      var n :| (n in Names(p)) != (n in Names(q));
    }
  }
}
