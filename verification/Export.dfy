/**
 * Paginated export of commits, one page per call.
 */
module Export {
  import opened Ledger
  import opened CommitWalk

  const EXPORT_MAX_LIMIT := 500
  const EXPORT_DEFAULT_LIMIT := 100

  type Store = map<Cid, Blob>

  /** A commit that can be exported: stored, parseable, and with its txn blob stored. */
  predicate Readable(store: Store, id: Cid) {
    && id in store && store[id].CommitBlob?
    && (store[id].commit.txn.Some? ==> store[id].commit.txn.value in store)
  }

  /** The graph the walk sees: readable commits and their parents. */
  ghost function ParentGraph(store: Store): (graph: Graph<Cid>)
    ensures forall id :: id in graph <==> Readable(store, id)
    ensures forall id | id in graph :: Readable(store, id) && graph[id] == store[id].commit.parents
  {
    map id | id in store && Readable(store, id) :: store[id].commit.parents
  }

  datatype Page = Page(
    ids: seq<Cid>,
    commits: seq<Blob>,
    blobs: map<Cid, Blob>,
    newestT: int,
    oldestT: int,
    next: Option<Cid>)

  /** What was asked for, or 100, and never more than 500. */
  function EffectiveLimit(requested: Option<nat>): (n: nat)
    ensures n <= 500 && (requested.Some? ==> n <= requested.value)
    ensures n == 500 || requested == Some(n) || (requested.None? && n == 100)
  {
    var n := if requested.Some? then requested.value else EXPORT_DEFAULT_LIMIT;
    if n < EXPORT_MAX_LIMIT then n else EXPORT_MAX_LIMIT
  }

  /** A listed commit comes with its stored bytes and its txn blob. */
  ghost predicate EntryHolds(store: Store, id: Cid, bytes: Blob, blobs: map<Cid, Blob>) {
    && Readable(store, id) && bytes == store[id]
    && (bytes.commit.txn.Some? ==> bytes.commit.txn.value in blobs)
  }

  /** Some listed commit refers to the txn blob `id`. */
  ghost predicate RefersTo(commits: seq<Blob>, id: Cid) {
    exists i | 0 <= i < |commits| :: commits[i].CommitBlob? && commits[i].commit.txn == Some(id)
  }

  /** The page carries the stored bytes of its commits and of exactly the txn blobs they refer to. */
  ghost predicate PageHolds(store: Store, page: Page) {
    && |page.commits| == |page.ids|
    && (forall i | 0 <= i < |page.ids| :: EntryHolds(store, page.ids[i], page.commits[i], page.blobs))
    && (forall id | id in page.blobs :: id in store && page.blobs[id] == store[id] && RefersTo(page.commits, id))
    && (page.ids != [] ==>
        && page.newestT == page.commits[0].commit.t
        && page.oldestT == page.commits[|page.ids| - 1].commit.t)
  }

  const EMPTY_PAGE := Page([], [], map[], 0, 0, None)

  /** Visiting one more commit: its bytes, its t, and its txn blob unless it is already there. */
  function Visit(store: Store, page: Page, id: Cid): Page
    requires Readable(store, id)
  {
    var commit := store[id].commit;
    Page(page.ids + [id], page.commits + [store[id]],
         if commit.txn.Some? && commit.txn.value !in page.blobs
         then page.blobs[commit.txn.value := store[commit.txn.value]] else page.blobs,
         if page.ids == [] then commit.t else page.newestT, commit.t, page.next)
  }

  lemma RefersToMore(commits: seq<Blob>, more: Blob, id: Cid)
    requires RefersTo(commits, id) || (more.CommitBlob? && more.commit.txn == Some(id))
    ensures RefersTo(commits + [more], id)
  {
    var commits' := commits + [more];
    if RefersTo(commits, id) {
      var i :| 0 <= i < |commits| && commits[i].CommitBlob? && commits[i].commit.txn == Some(id);
      assert commits'[i] == commits[i];
    } else {
      assert commits'[|commits|] == more;
    }
  }

  lemma VisitHolds(store: Store, page: Page, id: Cid)
    requires PageHolds(store, page) && Readable(store, id)
    ensures PageHolds(store, Visit(store, page, id))
  {
    var page' := Visit(store, page, id);
    forall x | x in page'.blobs ensures x in store && page'.blobs[x] == store[x] && RefersTo(page'.commits, x) {
      RefersToMore(page.commits, store[id], x);
    }
    forall i | 0 <= i < |page'.ids| ensures EntryHolds(store, page'.ids[i], page'.commits[i], page'.blobs) {
      if i < |page.ids| {
        assert EntryHolds(store, page.ids[i], page.commits[i], page.blobs);
      }
    }
  }

  /**
   * `export_commit_range` from a given start commit: the page lists what the walk visits, carries
   * the bytes that go with it, and names the first unvisited leftover as the cursor. It fails
   * exactly when the walk meets something unreadable.
   */
  method ExportPage(store: Store, start: Cid, requested: Option<nat>) returns (r: Option<Page>)
    ensures r.None? <==> Walk(ParentGraph(store), [start], [], EffectiveLimit(requested)).None?
    ensures r.Some? ==>
      && PageHolds(store, r.value)
      && var (ids, frontier) := Walk(ParentGraph(store), [start], [], EffectiveLimit(requested)).value;
         r.value.ids == ids && IsCursor(r.value.next, frontier, ids)
    ensures r.Some? ==>
      |r.value.ids| <= 500 && |r.value.ids| <= if requested.Some? then requested.value else 100
  {
    var limit := EffectiveLimit(requested);
    var page := EMPTY_PAGE;
    var frontier := [start];
    var round := 0;
    ghost var graph := ParentGraph(store);
    while round < limit && frontier != []
      invariant |page.ids| <= round <= limit
      invariant Walk(graph, [start], [], limit) == Walk(graph, frontier, page.ids, limit - round)
      invariant PageHolds(store, page)
    {
      var id := frontier[|frontier| - 1];
      frontier := frontier[..|frontier| - 1];
      round := round + 1;
      if id in page.ids { continue; }
      if !Readable(store, id) { return None; }
      VisitHolds(store, page, id);
      page := Visit(store, page, id);
      frontier := frontier + store[id].commit.parents;
    }
    var next := FirstUnvisited(frontier, page.ids);
    return Some(page.(next := next));
  }

  /**
   * One page of any commit graph: distinct commits reachable from the cursor, at most the limit,
   * and the whole reachable set when no next cursor is returned.
   */
  method ExportOnePage(store: Store, start: Cid, requested: Option<nat>) returns (r: Option<Page>)
    ensures r.Some? ==>
      && Distinct(r.value.ids) && PageHolds(store, r.value)
      && |r.value.ids| <= 500 && |r.value.ids| <= (if requested.Some? then requested.value else 100)
      && (forall id | id in r.value.ids :: Reachable(ParentGraph(store), start, id))
      && (r.value.next.None? ==> forall id :: Reachable(ParentGraph(store), start, id) <==> id in r.value.ids)
    ensures r.None? ==> exists id :: Reachable(ParentGraph(store), start, id) && !Readable(store, id)
  {
    OnePage(ParentGraph(store), start, EffectiveLimit(requested));
    r := ExportPage(store, start, requested);
  }
}
