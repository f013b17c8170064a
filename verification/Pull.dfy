/**
 * Following the export cursors of a single-parent history, and importing what is missing.
 */
module Pull {
  import opened Ledger
  import opened Namespaces
  import opened PushValidation
  import opened Publication
  import opened Transfer
  import opened CommitWalk
  import opened Export

  /** Commit `i` of an oldest-first history: t is i + 1 and the only parent is its predecessor. */
  ghost predicate ParentAt(h: seq<Commit>, i: nat)
    requires i < |h|
  {
    h[i].t == i + 1 && h[i].parents == if i == 0 then [] else [CommitCid(h[i - 1])]
  }

  /** A single-parent history from genesis, whole in the store. */
  ghost predicate History(store: Store, h: seq<Commit>) {
    && (forall i | 0 <= i < |h| :: ParentAt(h, i))
    && (forall i | 0 <= i < |h| :: HistoryStored(store, h[i]))
  }

  ghost predicate HistoryStored(store: Store, c: Commit) {
    CommitStored(store, c) && (c.txn.Some? ==> c.txn.value.codec == TxnCodec)
  }

  function Ids(h: seq<Commit>): (ids: seq<Cid>)
    ensures |ids| == |h| && forall i | 0 <= i < |h| :: ids[i] == CommitCid(h[i])
  {
    seq(|h|, i requires 0 <= i < |h| => CommitCid(h[i]))
  }

  lemma HistoryIsLinear(store: Store, h: seq<Commit>)
    requires History(store, h)
    ensures Linear(ParentGraph(store), Ids(h))
  {
    var ids, graph := Ids(h), ParentGraph(store);
    forall i, j | 0 <= i < j < |ids| ensures ids[i] != ids[j] {
      assert ParentAt(h, i) && ParentAt(h, j);
    }
    forall i | 0 <= i < |ids| ensures OnlyParent(graph, ids, i) {
      assert ParentAt(h, i) && HistoryStored(store, h[i]);
    }
  }

  function BlobsOf(cs: seq<Commit>): (bs: seq<Blob>)
    ensures |bs| == |cs| && forall i | 0 <= i < |cs| :: bs[i] == CommitBlob(cs[i])
  {
    seq(|cs|, i requires 0 <= i < |cs| => CommitBlob(cs[i]))
  }

  /** The commit below the `got` newest ones. */
  ghost function NextCursor(h: seq<Commit>, got: nat): Option<Cid>
    requires got <= |h|
  {
    if got == |h| then None else Some(Ids(h)[|h| - 1 - got])
  }

  /** The ids are those of the commits from the `k`th down. */
  ghost predicate Run(h: seq<Commit>, k: int, ids: seq<Cid>) {
    0 <= k < |h| && 1 <= |ids| <= k + 1 && ids == Down(Ids(h), k, |ids|)
  }

  lemma RunAt(h: seq<Commit>, k: int, ids: seq<Cid>, i: nat)
    requires Run(h, k, ids) && i < |ids|
    ensures ids[i] == CommitCid(h[k - i])
  {
  }

  /** What one page holds when `got` commits were fetched before it. */
  lemma PageIsNext(store: Store, h: seq<Commit>, got: nat, limit: nat, page: Page)
    requires History(store, h) && got < |h| && limit >= 1
    requires var w := Walk(ParentGraph(store), [Ids(h)[|h| - 1 - got]], [], limit);
      w.Some? ==> page.ids == w.value.0 && IsCursor(page.next, w.value.1, w.value.0)
    ensures Walk(ParentGraph(store), [Ids(h)[|h| - 1 - got]], [], limit).Some?
    ensures Run(h, |h| - 1 - got, page.ids) && page.next == NextCursor(h, got + |page.ids|)
  {
    var k := |h| - 1 - got;
    HistoryIsLinear(store, h);
    LinearWalk(ParentGraph(store), Ids(h), k, limit);
    LinearCursor(Ids(h), k, Least(limit, k + 1), page.next);
  }

  lemma PageOldest(store: Store, h: seq<Commit>, k: nat, page: Page)
    requires History(store, h) && PageHolds(store, page) && Run(h, k, page.ids)
    ensures page.oldestT == k - |page.ids| + 2
  {
    var o := k - |page.ids| + 1;
    assert ParentAt(h, o) && HistoryStored(store, h[o]);
    RunAt(h, k, page.ids, |page.ids| - 1);
    assert EntryHolds(store, page.ids[|page.ids| - 1], page.commits[|page.ids| - 1], page.blobs);
  }

  /** Blob `i` is the `i`th newest commit. */
  ghost predicate GotAt(h: seq<Commit>, got: seq<Blob>, i: nat)
    requires i < |got| && i < |h|
  {
    got[i] == CommitBlob(h[|h| - 1 - i])
  }

  ghost predicate TxnAt(h: seq<Commit>, blobs: map<Cid, Blob>, i: nat)
    requires i < |h|
  {
    h[i].txn.Some? ==> h[i].txn.value in blobs
  }

  /** The blobs fetched so far, newest first, with the txn blobs they refer to. */
  ghost predicate Fetched(store: Store, h: seq<Commit>, got: seq<Blob>, blobs: map<Cid, Blob>) {
    && |got| <= |h|
    && (forall i | 0 <= i < |got| :: GotAt(h, got, i))
    && (forall id | id in blobs :: id in store && blobs[id] == store[id])
    && (forall i | |h| - |got| <= i < |h| :: TxnAt(h, blobs, i))
  }

  lemma FetchedPage(store: Store, h: seq<Commit>, got: seq<Blob>, blobs: map<Cid, Blob>, page: Page)
    requires History(store, h) && Fetched(store, h, got, blobs) && PageHolds(store, page)
    requires Run(h, |h| - 1 - |got|, page.ids)
    ensures Fetched(store, h, got + page.commits, page.blobs + blobs)
  {
    FetchedCommits(store, h, got, blobs, page);
    forall i | |h| - |got + page.commits| <= i < |h| ensures TxnAt(h, page.blobs + blobs, i) {
      FetchedTxn(store, h, got, blobs, page, i);
    }
  }

  lemma FetchedTxn(store: Store, h: seq<Commit>, got: seq<Blob>, blobs: map<Cid, Blob>, page: Page, i: nat)
    requires History(store, h) && Fetched(store, h, got, blobs) && PageHolds(store, page)
    requires Run(h, |h| - 1 - |got|, page.ids) && |h| - |got| - |page.ids| <= i < |h|
    ensures TxnAt(h, page.blobs + blobs, i)
  {
    if i >= |h| - |got| {
      assert TxnAt(h, blobs, i);
    } else if h[i].txn.Some? {
      PageHasTxn(store, h, |h| - 1 - |got|, page, i);
    }
  }

  /** The page has the txn blobs of its commits. */
  lemma PageHasTxn(store: Store, h: seq<Commit>, k: nat, page: Page, i: nat)
    requires History(store, h) && PageHolds(store, page) && Run(h, k, page.ids)
    requires k - |page.ids| < i <= k && h[i].txn.Some?
    ensures h[i].txn.value in page.blobs
  {
    var j := k - i;
    RunAt(h, k, page.ids, j);
    assert EntryHolds(store, page.ids[j], page.commits[j], page.blobs);
    assert HistoryStored(store, h[i]);
  }

  lemma FetchedCommits(store: Store, h: seq<Commit>, got: seq<Blob>, blobs: map<Cid, Blob>, page: Page)
    requires History(store, h) && Fetched(store, h, got, blobs) && PageHolds(store, page)
    requires Run(h, |h| - 1 - |got|, page.ids)
    ensures var all := got + page.commits;
      |all| <= |h| && forall i | 0 <= i < |all| :: GotAt(h, all, i)
  {
    var all := got + page.commits;
    forall i | 0 <= i < |all| ensures GotAt(h, all, i) {
      if i >= |got| {
        RunAt(h, |h| - 1 - |got|, page.ids, i - |got|);
        assert EntryHolds(store, page.ids[i - |got|], all[i], page.blobs);
        assert HistoryStored(store, h[|h| - 1 - i]);
      } else {
        assert GotAt(h, got, i);
      }
    }
  }

  /** Keep the commits past `localT` and put them oldest first. */
  method SelectMissing(ghost h: seq<Commit>, got: seq<Blob>, localT: nat) returns (missing: seq<Blob>)
    requires forall i | 0 <= i < |h| :: ParentAt(h, i)
    requires localT <= |h| && |h| - localT <= |got| <= |h|
    requires forall i | 0 <= i < |got| :: GotAt(h, got, i)
    ensures missing == BlobsOf(h[localT..])
  {
    var kept: seq<Blob> := [];
    for i := 0 to |got|
      invariant |kept| == Least(i, |h| - localT)
      invariant forall j | 0 <= j < |kept| :: kept[j] == CommitBlob(h[|h| - 1 - j])
    {
      assert ParentAt(h, |h| - 1 - i) && GotAt(h, got, i);
      if got[i].commit.t > localT { kept := kept + [got[i]]; }
    }
    missing := [];
    for i := 0 to |kept|
      invariant |missing| == i
      invariant forall j | 0 <= j < i :: missing[j] == kept[i - 1 - j]
    {
      missing := [kept[i]] + missing;
    }
  }

  /** The newest commits have been fetched, in order and once each. */
  ghost predicate Progress(store: Store, h: seq<Commit>, all: seq<Blob>, blobs: map<Cid, Blob>, ids: seq<Cid>) {
    && |all| == |ids| <= |h| && (ids != [] ==> Run(h, |h| - 1, ids))
    && Fetched(store, h, all, blobs)
  }

  lemma PageAdds(store: Store, h: seq<Commit>, all: seq<Blob>, blobs: map<Cid, Blob>, ids: seq<Cid>, page: Page)
    requires History(store, h) && Progress(store, h, all, blobs, ids) && PageHolds(store, page)
    requires Run(h, |h| - 1 - |ids|, page.ids) && page.next == NextCursor(h, |ids| + |page.ids|)
    ensures Progress(store, h, all + page.commits, page.blobs + blobs, ids + page.ids)
    ensures |ids| < |ids + page.ids| <= |h| && page.oldestT == |h| - |ids + page.ids| + 1
    ensures page.next == NextCursor(h, |ids + page.ids|)
  {
    PageOldest(store, h, |h| - 1 - |all|, page);
    FetchedPage(store, h, all, blobs, page);
    RunAdd(h, ids, page.ids);
  }

  lemma RunAdd(h: seq<Commit>, ids: seq<Cid>, more: seq<Cid>)
    requires Run(h, |h| - 1 - |ids|, more) && (ids != [] ==> Run(h, |h| - 1, ids))
    ensures Run(h, |h| - 1, ids + more)
  {
    if ids != [] {
      DownAppend(Ids(h), |h| - 1, |ids|, |more|);
    } else {
      assert ids + more == more;
    }
  }

  /** Fetch the page at the cursor and add it to what was fetched before. */
  method FetchPage(store: Store, ghost h: seq<Commit>, cursor: Cid, requested: Option<nat>, ghost got: nat)
    returns (page: Page)
    requires History(store, h) && EffectiveLimit(requested) >= 1 && got < |h|
    requires NextCursor(h, got) == Some(cursor)
    ensures PageHolds(store, page) && Run(h, |h| - 1 - got, page.ids) && page.next == NextCursor(h, got + |page.ids|)
  {
    var fetched := ExportPage(store, cursor, requested);
    PageIsNext(store, h, got, EffectiveLimit(requested), if fetched.Some? then fetched.value else EMPTY_PAGE);
    return fetched.value;
  }

  lemma NothingFetched(store: Store, h: seq<Commit>)
    ensures Progress(store, h, [], map[], [])
  {
  }

  /** Fetch one more page; `next` is the cursor after it, and `oldest` the t it goes back to. */
  method FetchMore(store: Store, ghost h: seq<Commit>, cursor: Cid, requested: Option<nat>, ghost ids: seq<Cid>,
                   all: seq<Blob>, blobs: map<Cid, Blob>)
    returns (ghost ids': seq<Cid>, all': seq<Blob>, blobs': map<Cid, Blob>, oldest: int, next: Option<Cid>)
    requires History(store, h) && EffectiveLimit(requested) >= 1 && Progress(store, h, all, blobs, ids)
    requires |ids| < |h| && NextCursor(h, |ids|) == Some(cursor)
    ensures Progress(store, h, all', blobs', ids') && |ids| < |ids'| <= |h| && oldest == |h| - |ids'| + 1
    ensures next == NextCursor(h, |ids'|)
  {
    var page := FetchPage(store, h, cursor, requested, |ids|);
    PageAdds(store, h, all, blobs, ids, page);
    return ids + page.ids, all + page.commits, page.blobs + blobs, page.oldestT, page.next;
  }

  /** Follow the cursors until local history, or genesis, is reached. */
  method FetchAll(store: Store, ghost h: seq<Commit>, head: Cid, requested: Option<nat>, localT: nat)
    returns (ghost ids: seq<Cid>, all: seq<Blob>, blobs: map<Cid, Blob>)
    requires History(store, h) && h != [] && head == CommitCid(Last(h))
    requires EffectiveLimit(requested) >= 1 && localT <= |h|
    ensures Progress(store, h, all, blobs, ids) && ids != [] && |h| - localT <= |ids|
  {
    var cursor := head;
    all, blobs, ids := [], map[], [];
    NothingFetched(store, h);
    while true
      invariant |ids| < |h| && Progress(store, h, all, blobs, ids)
      invariant NextCursor(h, |ids|) == Some(cursor)
      decreases |h| - |ids|
    {
      var oldest, next;
      ids, all, blobs, oldest, next := FetchMore(store, h, cursor, requested, ids, all, blobs);
      if oldest <= localT + 1 { break; }
      if next.None? { break; }
      cursor := next.value;
    }
  }

  /**
   * The pull client: follow the cursors until local history (or genesis) is reached, then keep
   * what is missing, oldest first. `ids` is every commit fetched, in order: each once, newest
   * first, and all of them down to genesis for an empty receiver.
   */
  method FetchMissing(store: Store, ghost h: seq<Commit>, head: Cid, requested: Option<nat>, localT: nat)
    returns (ghost ids: seq<Cid>, missing: seq<Blob>, blobs: map<Cid, Blob>)
    requires History(store, h) && h != [] && head == CommitCid(Last(h))
    requires EffectiveLimit(requested) >= 1 && localT <= |h|
    ensures |h| - localT <= |ids| <= |h| && ids == Down(Ids(h), |h| - 1, |ids|)
    ensures missing == BlobsOf(h[localT..])
    ensures BlobsProvided(h[localT..], blobs)
  {
    var all;
    ids, all, blobs := FetchAll(store, h, head, requested, localT);
    missing := SelectMissing(h, all, localT);
    FetchedProvides(store, h, all, blobs, localT);
  }

  lemma FetchedProvides(store: Store, h: seq<Commit>, got: seq<Blob>, blobs: map<Cid, Blob>, n: nat)
    requires History(store, h) && Fetched(store, h, got, blobs) && n <= |h| && |h| - n <= |got|
    ensures BlobsProvided(h[n..], blobs)
  {
    forall id | id in RequiredTxns(h[n..]) ensures id in blobs && id.codec == TxnCodec && Verify(id, blobs[id]) {
      var i :| 0 <= i < |h[n..]| && h[n..][i].txn == Some(id);
      assert h[n + i].txn == Some(id) && HistoryStored(store, h[n + i]) && TxnAt(h, blobs, n + i);
    }
  }

  /** The missing part passes every check exactly when none of its commits is empty. */
  lemma MissingAcceptedIff(h: seq<Commit>, n: nat, missing: seq<Blob>, blobs: map<Cid, Blob>)
    requires forall i | 0 <= i < |h| :: ParentAt(h, i)
    requires n < |h| && BlobsProvided(h[n..], blobs) && missing == BlobsOf(h[n..])
    ensures AllCommits(missing) && CommitsOf(missing) == h[n..]
    ensures BatchAccepted(RefValue(HeadAt(h, n), n), h[n..], blobs)
      <==> forall i | n <= i < |h| :: h[i].flakes != []
  {
    var cs := h[n..];
    assert ParentAt(h, n) && cs[0] == h[n];
    if n > 0 { assert h[n].parents[0] == CommitCid(h[n - 1]); }
    forall i | 0 < i < |cs| ensures Follows(cs, i) {
      assert ParentAt(h, n + i) && ParentAt(h, n + i - 1);
      assert cs[i].parents[0].digest == CommitBlob(cs[i - 1]);
    }
    forall i | n <= i < |h| ensures h[i] == cs[i - n] {}
  }

  /** So importing it moves the head, to the end of the history, exactly then. */
  lemma MissingPublishesIff(h: seq<Commit>, n: nat, missing: seq<Blob>, blobs: map<Cid, Blob>)
    requires forall i | 0 <= i < |h| :: ParentAt(h, i)
    requires n < |h| && BlobsProvided(h[n..], blobs) && missing == BlobsOf(h[n..])
    ensures CommitsOf(missing) == h[n..] && Tip(h[n..]) == RefValue(Some(CommitCid(Last(h))), |h|)
    ensures ImportPublishes(RefValue(HeadAt(h, n), n), missing, blobs, None)
      <==> forall i | n <= i < |h| :: h[i].flakes != []
  {
    MissingAcceptedIff(h, n, missing, blobs);
    assert Last(h[n..]) == Last(h) && Last(h).t == |h| by { assert ParentAt(h, |h| - 1); }
  }

  /**
   * Pull: for every page size, a receiver that is empty or at an ancestor ends at the sender's
   * head, with everything stored, exactly when no missing commit is empty; otherwise it stays
   * where it was. The cache follows exactly when also the namespaces of the missing commits fit.
   */
  method PullInto(receiver: LedgerHandle, ns: NsTable, store: Store, ghost h: seq<Commit>, head: Cid,
                  requested: Option<nat>, localT: nat)
    returns (r: Result<RefValue, TransferError>, ns': NsTable)
    requires History(store, h) && h != [] && head == CommitCid(Last(h))
    requires EffectiveLimit(requested) >= 1 && localT <= |h|
    requires receiver.head == RefValue(HeadAt(h, localT), localT) && OneToOne(ns)
    modifies receiver
    ensures receiver.head == RefValue(Some(head), |h|) <==> forall i | localT <= i < |h| :: h[i].flakes != []
    ensures receiver.head == RefValue(Some(head), |h|) ==>
      forall i | localT <= i < |h| :: CommitStored(receiver.store, h[i])
    ensures receiver.head == RefValue(Some(head), |h|) || receiver.head == old(receiver.head)
    ensures r.Ok? <==>
      && (forall i | localT <= i < |h| :: h[i].flakes != [])
      && (localT == |h| || Compatible(ns, FirstWins(Deltas(h[localT..]))))
    ensures r.Err? ==> receiver.cached == old(receiver.cached) && ns' == ns
  {
    ghost var ids;
    var missing, blobs;
    ids, missing, blobs := FetchMissing(store, h, head, requested, localT);
    if missing == [] {
      assert localT == |h|;
      return Ok(receiver.head), ns;
    }
    MissingPublishesIff(h, localT, missing, blobs);
    r, ns' := receiver.ImportIncremental(ns, missing, blobs, None);
    if receiver.head == RefValue(Some(head), |h|) {
      forall i | localT <= i < |h| ensures CommitStored(receiver.store, h[i]) {
        assert h[localT..][i - localT] == h[i];
      }
    }
  }
}
