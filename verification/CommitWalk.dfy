/**
 * The depth-limited stack walk behind commit export, over any graph of parent references. `graph`
 * maps every node that can be read to its parents.
 */
module CommitWalk {
  import opened Ledger

  type Graph<V> = map<V, seq<V>>

  /**
   * `n` rounds of the walk: pop the frontier, skip nodes already visited, otherwise visit and push
   * the parents. The result is what was visited, in order, and the frontier left over; None when a
   * node could not be read.
   */
  function Walk<V(==)>(graph: Graph<V>, frontier: seq<V>, visited: seq<V>, n: nat): Option<(seq<V>, seq<V>)>
    decreases n
  {
    if n == 0 || frontier == [] then Some((visited, frontier))
    else
      var id, rest := frontier[|frontier| - 1], frontier[..|frontier| - 1];
      if id in visited then Walk(graph, rest, visited, n - 1)
      else if id !in graph then None
      else Walk(graph, rest + graph[id], visited + [id], n - 1)
  }

  /** One visiting round, for a frontier written as its rest and its top. */
  lemma WalkVisit<V>(graph: Graph<V>, rest: seq<V>, id: V, visited: seq<V>, n: nat)
    requires n > 0 && id !in visited && id in graph
    ensures Walk(graph, rest + [id], visited, n) == Walk(graph, rest + graph[id], visited + [id], n - 1)
  {
    var frontier := rest + [id];
    assert frontier[..|frontier| - 1] == rest;
  }

  /** The first leftover frontier entry that was not visited is the cursor for the next page. */
  ghost predicate IsCursor<V>(next: Option<V>, frontier: seq<V>, visited: seq<V>) {
    match next
    case None => forall i | 0 <= i < |frontier| :: frontier[i] in visited
    case Some(id) => exists i | 0 <= i < |frontier| ::
      frontier[i] == id && id !in visited && forall j | 0 <= j < i :: frontier[j] in visited
  }

  method FirstUnvisited<V(==)>(frontier: seq<V>, visited: seq<V>) returns (next: Option<V>)
    ensures IsCursor(next, frontier, visited)
  {
    for i := 0 to |frontier|
      invariant forall j | 0 <= j < i :: frontier[j] in visited
    {
      if frontier[i] !in visited { return Some(frontier[i]); }
    }
    return None;
  }

  // ---------------------------------------------------------------------------
  // One page over any graph
  // ---------------------------------------------------------------------------

  ghost predicate IsPath<V>(graph: Graph<V>, path: seq<V>) {
    && path != []
    && forall i | 0 <= i < |path| - 1 :: path[i] in graph && path[i + 1] in graph[path[i]]
  }

  ghost predicate PathBetween<V>(graph: Graph<V>, a: V, b: V, path: seq<V>) {
    IsPath(graph, path) && path[0] == a && path[|path| - 1] == b
  }

  ghost predicate Reachable<V(!new)>(graph: Graph<V>, a: V, b: V) {
    exists path :: PathBetween(graph, a, b, path)
  }

  lemma ReachParent<V(!new)>(graph: Graph<V>, a: V, b: V, p: V)
    requires Reachable(graph, a, b) && b in graph && p in graph[b]
    ensures Reachable(graph, a, p)
  {
    var path :| PathBetween(graph, a, b, path);
    assert PathBetween(graph, a, p, path + [p]);
  }

  ghost predicate Distinct<V>(s: seq<V>) {
    forall i, j | 0 <= i < j < |s| :: s[i] != s[j]
  }

  ghost predicate WalkInv<V(!new)>(graph: Graph<V>, start: V, frontier: seq<V>, visited: seq<V>) {
    && Distinct(visited)
    && (start in visited || start in frontier)
    && (forall id | id in visited :: id in graph && Reachable(graph, start, id))
    && (forall id | id in frontier :: Reachable(graph, start, id))
    && (forall id, p | id in visited && p in graph[id] :: p in visited || p in frontier)
  }

  lemma WalkInvVisit<V(!new)>(graph: Graph<V>, start: V, frontier: seq<V>, visited: seq<V>)
    requires WalkInv(graph, start, frontier, visited) && frontier != []
    ensures var id, rest := frontier[|frontier| - 1], frontier[..|frontier| - 1];
      && (id in visited ==> WalkInv(graph, start, rest, visited))
      && (id !in visited && id in graph ==> WalkInv(graph, start, rest + graph[id], visited + [id]))
  {
    var id, rest := frontier[|frontier| - 1], frontier[..|frontier| - 1];
    assert forall x | x in frontier :: x == id || x in rest;
    if id !in visited && id in graph {
      var frontier', visited' := rest + graph[id], visited + [id];
      forall x | x in frontier' ensures Reachable(graph, start, x) {
        if x in graph[id] { ReachParent(graph, start, id, x); }
      }
      forall x, p | x in visited' && p in graph[x] ensures p in visited' || p in frontier' {
      }
    }
  }

  lemma {:induction false} WalkKeeps<V(!new)>(graph: Graph<V>, start: V, frontier: seq<V>, visited: seq<V>, n: nat)
    requires WalkInv(graph, start, frontier, visited)
    ensures var r := Walk(graph, frontier, visited, n);
      && (r.Some? ==> WalkInv(graph, start, r.value.1, r.value.0) && |r.value.0| <= |visited| + n)
      && (r.None? ==> exists id :: Reachable(graph, start, id) && id !in graph)
    decreases n
  {
    if n > 0 && frontier != [] {
      WalkInvVisit(graph, start, frontier, visited);
      var id, rest := frontier[|frontier| - 1], frontier[..|frontier| - 1];
      if id in visited {
        WalkKeeps(graph, start, rest, visited, n - 1);
      } else if id in graph {
        WalkKeeps(graph, start, rest + graph[id], visited + [id], n - 1);
      }
    }
  }

  /** A set that holds the start and every parent of its members holds everything reachable. */
  lemma {:induction false} ClosedHoldsPath<V>(graph: Graph<V>, closed: seq<V>, path: seq<V>)
    requires IsPath(graph, path) && path[0] in closed
    requires forall id, p | id in closed && id in graph && p in graph[id] :: p in closed
    ensures path[|path| - 1] in closed
  {
    if |path| > 1 {
      var rest := path[1..];
      forall i | 0 <= i < |rest| - 1 ensures rest[i] in graph && rest[i + 1] in graph[rest[i]] {
        assert rest[i] == path[i + 1] && rest[i + 1] == path[i + 2];
      }
      assert path[0] in graph && path[1] in graph[path[0]];
      ClosedHoldsPath(graph, closed, rest);
    }
  }

  /**
   * One page, any graph, any limit: the listed nodes are distinct, reachable from the cursor and
   * no more than the limit; without a next cursor they are everything reachable; and the walk
   * fails only when something reachable cannot be read.
   */
  lemma OnePage<V(!new)>(graph: Graph<V>, start: V, limit: nat)
    ensures var r := Walk(graph, [start], [], limit);
      && (r.None? ==> exists id :: Reachable(graph, start, id) && id !in graph)
      && (r.Some? ==>
          && Distinct(r.value.0) && |r.value.0| <= limit
          && (forall id | id in r.value.0 :: id in graph && Reachable(graph, start, id))
          && (IsCursor(None, r.value.1, r.value.0) ==> forall id | Reachable(graph, start, id) :: id in r.value.0))
  {
    assert PathBetween(graph, start, start, [start]);
    WalkKeeps(graph, start, [start], [], limit);
    var r := Walk(graph, [start], [], limit);
    if r.Some? && IsCursor(None, r.value.1, r.value.0) {
      var visited := r.value.0;
      forall id | Reachable(graph, start, id) ensures id in visited {
        var path :| PathBetween(graph, start, id, path);
        ClosedHoldsPath(graph, visited, path);
      }
    }
  }

  lemma ReachTrans<V(!new)>(graph: Graph<V>, a: V, b: V, c: V)
    requires Reachable(graph, a, b) && Reachable(graph, b, c)
    ensures Reachable(graph, a, c)
  {
    var xs :| PathBetween(graph, a, b, xs);
    var ys :| PathBetween(graph, b, c, ys);
    var path := xs + ys[1..];
    forall i | 0 <= i < |path| - 1 ensures path[i] in graph && path[i + 1] in graph[path[i]] {
      if i < |xs| - 1 {
        assert path[i] == xs[i] && path[i + 1] == xs[i + 1];
      } else {
        var j := i - |xs| + 1;
        assert path[i] == ys[j] && path[i + 1] == ys[j + 1];
      }
    }
    assert PathBetween(graph, a, c, path);
  }

  /** Listed on this page, or left for the pages that follow the cursor. */
  ghost predicate Covered<V(!new)>(graph: Graph<V>, visited: seq<V>, next: Option<V>, id: V) {
    id in visited || (next.Some? && Reachable(graph, next.value, id))
  }

  lemma {:induction false} PathIsCovered<V(!new)>(graph: Graph<V>, start: V, frontier: seq<V>, visited: seq<V>,
                                                  next: Option<V>, path: seq<V>)
    requires WalkInv(graph, start, frontier, visited) && IsPath(graph, path)
    requires forall id | id in frontier :: Covered(graph, visited, next, id)
    requires Covered(graph, visited, next, path[0])
    ensures Covered(graph, visited, next, path[|path| - 1])
    decreases |path|
  {
    if |path| > 1 {
      var front := path[..|path| - 1];
      PathIsCovered(graph, start, frontier, visited, next, front);
      var id, p := front[|front| - 1], path[|path| - 1];
      assert id == path[|path| - 2] && id in graph && p in graph[id];
      if id !in visited { ReachParent(graph, next.value, id, p); }
    }
  }

  /**
   * Any graph, any limit: this page and the cursor together cover everything reachable exactly when
   * every frontier entry left over is on the page or reachable from the cursor.
   */
  lemma PageLosesNothingIff<V(!new)>(graph: Graph<V>, start: V, limit: nat, next: Option<V>)
    requires Walk(graph, [start], [], limit).Some?
    requires var (visited, frontier) := Walk(graph, [start], [], limit).value; IsCursor(next, frontier, visited)
    ensures var (visited, frontier) := Walk(graph, [start], [], limit).value;
      (forall id | Reachable(graph, start, id) :: Covered(graph, visited, next, id))
      <==> forall id | id in frontier :: Covered(graph, visited, next, id)
  {
    var (visited, frontier) := Walk(graph, [start], [], limit).value;
    assert PathBetween(graph, start, start, [start]);
    WalkKeeps(graph, start, [start], [], limit);
    if forall id | id in frontier :: Covered(graph, visited, next, id) {
      forall id | Reachable(graph, start, id) ensures Covered(graph, visited, next, id) {
        var path :| PathBetween(graph, start, id, path);
        PathIsCovered(graph, start, frontier, visited, next, path);
      }
    }
  }

  /**
   * Only one leftover frontier entry becomes the cursor, so following cursors over a merge can
   * lose a node: with limit 1 the second parent of `m` is on no later page.
   */
  lemma MergeHistoryLosesANode<V(!new)>(graph: Graph<V>, g: V, a: V, b: V, m: V, next: V, n: nat)
    requires Distinct([g, a, b, m]) && g in graph && a in graph && b in graph && m in graph
    requires graph[g] == [] && graph[a] == [g] && graph[b] == [g] && graph[m] == [a, b]
    requires Reachable(graph, a, next)
    ensures Walk(graph, [m], [], 1) == Some(([m], [a, b])) && IsCursor(Some(a), [a, b], [m])
    ensures Reachable(graph, m, b)
    ensures var r := Walk(graph, [next], [], n); r.Some? && b !in r.value.0
  {
    var all := [g, a, b, m];
    assert all[0] == g && all[1] == a && all[2] == b && all[3] == m;
    WalkVisit(graph, [], m, [], 1);
    assert [] + [m] == [m] && [] + [a, b] == [a, b] && [a, b][0] == a;
    assert PathBetween(graph, m, b, [m, b]);
    OnePage(graph, next, n);
    BelowMerge(graph, g, a);
    forall id | Reachable(graph, next, id) ensures id in [a, g] { ReachTrans(graph, a, next, id); }
  }

  lemma BelowMerge<V(!new)>(graph: Graph<V>, g: V, a: V)
    requires g in graph && a in graph && graph[g] == [] && graph[a] == [g]
    ensures forall id | Reachable(graph, a, id) :: id in [a, g]
  {
    forall id | Reachable(graph, a, id) ensures id in [a, g] {
      var path :| PathBetween(graph, a, id, path);
      assert [a, g][0] == a && [a, g][1] == g;
      ClosedHoldsPath(graph, [a, g], path);
    }
  }

  // ---------------------------------------------------------------------------
  // Single-parent histories
  // ---------------------------------------------------------------------------

  ghost predicate OnlyParent<V>(graph: Graph<V>, ids: seq<V>, i: nat)
    requires i < |ids|
  {
    ids[i] in graph && graph[ids[i]] == if i == 0 then [] else [ids[i - 1]]
  }

  /** `ids` is a history, oldest first, in which every node has its predecessor as only parent. */
  ghost predicate Linear<V>(graph: Graph<V>, ids: seq<V>) {
    Distinct(ids) && forall i | 0 <= i < |ids| :: OnlyParent(graph, ids, i)
  }

  /** `m` nodes from node `k` downwards, newest first. */
  ghost function Down<V>(ids: seq<V>, k: nat, m: nat): (r: seq<V>)
    requires m <= k + 1 <= |ids|
    ensures |r| == m && forall i | 0 <= i < m :: r[i] == ids[k - i]
  {
    seq(m, i requires 0 <= i < m => ids[k - i])
  }

  /** Pages concatenate. */
  lemma DownAppend<V>(ids: seq<V>, k: nat, m: nat, n: nat)
    requires 0 < n && m + n <= k + 1 <= |ids|
    ensures Down(ids, k, m) + Down(ids, k - m, n) == Down(ids, k, m + n)
  {
  }

  lemma DownNext<V>(ids: seq<V>, k: nat, m: nat)
    requires Distinct(ids) && m <= k < |ids|
    ensures ids[k - m] !in Down(ids, k, m)
    ensures Down(ids, k, m) + [ids[k - m]] == Down(ids, k, m + 1)
  {
  }

  /** The frontier left when node `j` is the next to visit; empty below genesis. */
  ghost function Rest<V>(ids: seq<V>, j: int): seq<V>
    requires j < |ids|
  {
    if j < 0 then [] else [ids[j]]
  }

  lemma LinearVisit<V>(graph: Graph<V>, ids: seq<V>, k: nat, visited: seq<V>, n: nat)
    requires k < |ids| && OnlyParent(graph, ids, k) && ids[k] !in visited && n > 0
    ensures Walk(graph, Rest(ids, k), visited, n) == Walk(graph, Rest(ids, k - 1), visited + [ids[k]], n - 1)
  {
    WalkVisit(graph, [], ids[k], visited, n);
    assert [] + [ids[k]] == Rest(ids, k);
    assert [] + graph[ids[k]] == Rest(ids, k - 1);
  }

  /** Round `i` of a walk whose states are listed does not change its outcome. */
  ghost predicate SameWalk<V>(graph: Graph<V>, fs: seq<seq<V>>, vs: seq<seq<V>>, n: nat, i: nat)
    requires i + 1 < |fs| == |vs| && i < n
  {
    Walk(graph, fs[i], vs[i], n - i) == Walk(graph, fs[i + 1], vs[i + 1], n - i - 1)
  }

  lemma {:induction false} Telescope<V>(graph: Graph<V>, fs: seq<seq<V>>, vs: seq<seq<V>>, n: nat, m: nat)
    requires m < |fs| == |vs| && m <= n
    requires forall i | 0 <= i < m :: SameWalk(graph, fs, vs, n, i)
    ensures Walk(graph, fs[0], vs[0], n) == Walk(graph, fs[m], vs[m], n - m)
  {
    if m > 0 {
      Telescope(graph, fs, vs, n, m - 1);
      assert SameWalk(graph, fs, vs, n, m - 1);
    }
  }

  lemma LinearRound<V>(graph: Graph<V>, ids: seq<V>, k: nat, n: nat, fs: seq<seq<V>>, vs: seq<seq<V>>, i: nat)
    requires i <= k < |ids| && i + 1 < |fs| == |vs| && i < n && OnlyParent(graph, ids, k - i)
    requires fs[i] == Rest(ids, k - i) && fs[i + 1] == Rest(ids, k - i - 1)
    requires ids[k - i] !in vs[i] && vs[i + 1] == vs[i] + [ids[k - i]]
    ensures SameWalk(graph, fs, vs, n, i)
  {
    LinearVisit(graph, ids, k - i, vs[i], n - i);
  }

  lemma LinearTrace<V>(graph: Graph<V>, ids: seq<V>, k: nat, n: nat, m: nat)
    returns (fs: seq<seq<V>>, vs: seq<seq<V>>)
    requires Linear(graph, ids) && k < |ids| && m <= n && m <= k + 1
    ensures |fs| == |vs| == m + 1 && forall i | 0 <= i < m :: SameWalk(graph, fs, vs, n, i)
    ensures fs[0] == Rest(ids, k) && fs[m] == Rest(ids, k - m) && vs[0] == [] && vs[m] == Down(ids, k, m)
  {
    fs := seq(m + 1, i requires 0 <= i <= m => Rest(ids, k - i));
    vs := seq(m + 1, i requires 0 <= i <= m => Down(ids, k, i));
    forall i | 0 <= i < m ensures SameWalk(graph, fs, vs, n, i) {
      LinearStep(graph, ids, k, i);
      LinearRound(graph, ids, k, n, fs, vs, i);
    }
  }

  lemma LinearStep<V>(graph: Graph<V>, ids: seq<V>, k: nat, i: nat)
    requires Linear(graph, ids) && i <= k < |ids|
    ensures OnlyParent(graph, ids, k - i) && ids[k - i] !in Down(ids, k, i)
    ensures Down(ids, k, i) + [ids[k - i]] == Down(ids, k, i + 1)
  {
    DownNext(ids, k, i);
  }

  /** From node `k`, `m` rounds visit the next `m` nodes in order. */
  lemma LinearRounds<V>(graph: Graph<V>, ids: seq<V>, k: nat, n: nat, m: nat)
    requires Linear(graph, ids) && k < |ids| && m <= n && m <= k + 1
    ensures Walk(graph, Rest(ids, k), [], n) == Walk(graph, Rest(ids, k - m), Down(ids, k, m), n - m)
  {
    var fs, vs := LinearTrace(graph, ids, k, n, m);
    Telescope(graph, fs, vs, n, m);
  }

  /** A walk of `n` rounds visits the next `n` nodes, or all that remain. */
  lemma LinearWalk<V>(graph: Graph<V>, ids: seq<V>, k: nat, n: nat)
    requires Linear(graph, ids) && k < |ids|
    ensures var m := Least(n, k + 1);
      Walk(graph, [ids[k]], [], n) == Some((Down(ids, k, m), Rest(ids, k - m)))
  {
    LinearRounds(graph, ids, k, n, Least(n, k + 1));
  }

  lemma LinearCursor<V>(ids: seq<V>, k: nat, m: nat, next: Option<V>)
    requires Distinct(ids) && 0 < m <= k + 1 <= |ids|
    requires IsCursor(next, Rest(ids, k - m), Down(ids, k, m))
    ensures next == if m == k + 1 then None else Some(ids[k - m])
  {
    if m < k + 1 {
      assert Rest(ids, k - m)[0] == ids[k - m];
    }
  }
}
