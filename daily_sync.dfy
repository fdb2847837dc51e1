/** The daily sync edge function: fetch the subreddit (PullPush when Reddit
    fails), work out which posts are new, upsert everything in batches of 50,
    read the names off up to 100 un-processed screenshots, and hide the new
    posts that look like sensitive news without an identified subject. */
module DailySync {
  import opened Common
  import opened PostStore
  import opened Ingest
  import Enrich
  import Moderation

  const MAX_PAGES: nat := 40
  const OCR_BATCH_SIZE: nat := 100

  /** Everything the handler talks to: the Reddit listing, the PullPush
      reply, whether the existing-id query returned data, which upsert batches
      the database accepts, the clock, whether an API key is configured, the
      un-processed query, the OCR services, whether the new-rows query
      returned data and whether the hide update was accepted. */
  datatype SyncEnv = SyncEnv(
    fetchPage: PageFetch,
    pullPush: PushReply,
    existingOk: bool,
    upsertOk: nat -> bool,
    now: string,
    hasApiKey: bool,
    unOcrd: Enrich.UnOcrdQuery,
    ocr: Enrich.OcrEnv,
    newRowsOk: bool,
    hideOk: bool)

  /** The JSON body: the counters of a finished run, or the 500 reply of a run
      an error escaped from. */
  datatype SyncReport =
    | Synced(fetched: nat, upserted: nat, ocrd: nat, hidden: nat, fallback: bool)
    | SyncFailed

  datatype SyncResult = SyncResult(table: Table, report: SyncReport)

  // ---------------------------------------------------------------------------
  // Phase 2: the new ids

  /** `select('id').in('id', allIds)`: the fetched ids already stored, or none
      when the query returns no data. */
  function ExistingIds(t: Table, posts: seq<RedditPost>, existingOk: bool): (r: set<string>)
    ensures r <= PostIds(posts) * t.Keys
    ensures existingOk ==> r == PostIds(posts) * t.Keys
  {
    if existingOk then PostIds(posts) * t.Keys else {}
  }

  /** The ids of the posts that are not among `existing`. */
  function NewIdsOf(posts: seq<RedditPost>, existing: set<string>): set<string> {
    set p | p in posts && p.id !in existing :: p.id
  }

  /** The new ids are the fetched ids minus the existing ones. */
  lemma NewIdsOfSpec(posts: seq<RedditPost>, existing: set<string>)
    ensures NewIdsOf(posts, existing) == PostIds(posts) - existing
  {
  }

  /** `newPostIds`: exactly the fetched ids not stored yet; every fetched id
      when the existing-id query failed. */
  lemma NewIdsSpec(t: Table, posts: seq<RedditPost>, existingOk: bool)
    ensures var n := NewIdsOf(posts, ExistingIds(t, posts, existingOk));
      && (existingOk ==> n == PostIds(posts) - t.Keys)
      && (!existingOk ==> n == PostIds(posts))
      && PostIds(posts) - t.Keys <= n <= PostIds(posts)
  {
    NewIdsOfSpec(posts, ExistingIds(t, posts, existingOk));
  }

  /** `for (const post of allPosts) if (!existingIds.has(post.id)) newPostIds.add(post.id)`. */
  method CollectNewIds(posts: seq<RedditPost>, existing: set<string>) returns (newIds: set<string>)
    ensures newIds == NewIdsOf(posts, existing)
  {
    newIds := {};
    var i := 0;
    while i < |posts|
      invariant i <= |posts|
      invariant newIds == NewIdsOf(posts[..i], existing)
    {
      assert posts[..i + 1] == posts[..i] + [posts[i]];
      if posts[i].id !in existing {
        newIds := newIds + {posts[i].id};
      }
      i := i + 1;
    }
    assert posts[..i] == posts;
  }

  // ---------------------------------------------------------------------------
  // Phase 4: auto-hide

  /** `newRows.filter(shouldAutoHide).map(r => r.id)`: the new ids that are
      stored and whose stored row the auto-hide rule flags. */
  function ToHide(t: Table, newIds: set<string>): (r: set<string>)
    ensures r <= newIds * t.Keys
    ensures forall id :: id in r <==>
      id in newIds && id in t && Moderation.ShouldAutoHide(t[id].title, t[id].imageUrl, t[id].extractedName)
  {
    set id | id in newIds && id in t && Moderation.ShouldAutoHide(t[id].title, t[id].imageUrl, t[id].extractedName)
  }

  datatype HideSummary = HideSummary(table: Table, hidden: nat)

  /** Phase 4: when the new-rows query returned data and the update was
      accepted, the flagged new posts are hidden and counted; otherwise
      nothing changes and the count stays 0. */
  function AutoHide(t: Table, newIds: set<string>, newRowsOk: bool, hideOk: bool): HideSummary {
    var toHide := ToHide(t, newIds);
    if newIds != {} && newRowsOk && toHide != {} && hideOk then HideSummary(HideIds(t, toHide), |toHide|)
    else HideSummary(t, 0)
  }

  /** Auto-hide sets `hidden` and nothing else; a post it hides is a new id
      the rule flags; with both requests succeeding it hides every one of them. */
  lemma AutoHideSpec(t: Table, newIds: set<string>, newRowsOk: bool, hideOk: bool)
    ensures var h := AutoHide(t, newIds, newRowsOk, hideOk);
      && h.table.Keys == t.Keys
      && (forall k :: k in t ==> h.table[k].(hidden := t[k].hidden) == t[k])
      && (forall k :: k in t && t[k].hidden ==> h.table[k].hidden)
      && (forall k :: k in t && h.table[k].hidden && !t[k].hidden ==>
            k in newIds && Moderation.ShouldAutoHide(t[k].title, t[k].imageUrl, t[k].extractedName))
      && (newRowsOk && hideOk ==>
            h.hidden == |ToHide(t, newIds)|
            && forall k :: k in ToHide(t, newIds) ==> h.table[k].hidden)
      && (!newRowsOk || !hideOk ==> h == HideSummary(t, 0))
  {
    HideIdsSpec(t, ToHide(t, newIds));
  }

  /** Phase 4 as the handler runs it. */
  method RunAutoHide(store: Store, newIds: set<string>, newRowsOk: bool, hideOk: bool) returns (hidden: nat)
    modifies store
    ensures HideSummary(store.rows, hidden) == AutoHide(old(store.rows), newIds, newRowsOk, hideOk)
  {
    hidden := 0;
    if newIds == {} || !newRowsOk {
      return;
    }
    var t := store.rows;
    var toHide := set id | id in newIds && id in t && Moderation.ShouldAutoHide(t[id].title, t[id].imageUrl, t[id].extractedName);
    if toHide != {} && hideOk {
      store.Hide(toHide);
      hidden := |toHide|;
    }
  }

  // ---------------------------------------------------------------------------
  // The whole run

  /** The handler: an error escaping from any phase (the PullPush request
      throwing, a post with no permalink, the vision call throwing) ends the
      run with the 500 reply and whatever had been written by then. */
  function DailySync(t: Table, env: SyncEnv): SyncResult {
    var f := FetchWithFallback(env.fetchPage, MAX_PAGES, env.pullPush);
    if f.threw then SyncResult(t, SyncFailed)
    else
      var newIds := NewIdsOf(f.posts, ExistingIds(t, f.posts, env.existingOk));
      var u := UpsertAll(t, f.posts, env.upsertOk, env.now, false);
      if u.aborted then SyncResult(u.table, SyncFailed)
      else
        var o := Enrich.OcrPhase(u.table, env.hasApiKey, env.unOcrd, OCR_BATCH_SIZE, env.ocr);
        if o.aborted then SyncResult(o.table, SyncFailed)
        else
          var h := AutoHide(o.table, newIds, env.newRowsOk, env.hideOk);
          SyncResult(h.table, Synced(|f.posts|, u.upserted, o.ocrd, h.hidden, f.fallback))
  }

  /** What a finished run reports: at most 40 Reddit requests; the fallback
      exactly when a Reddit request threw; no more rows upserted than posts
      fetched, all of them exactly when no batch was rejected; at most 100
      posts read; and a hidden count of at most the number of new posts. */
  lemma DailySyncReport(t: Table, env: SyncEnv)
    ensures Paging(env.fetchPage, MAX_PAGES).requests <= MAX_PAGES
    ensures var r := DailySync(t, env).report;
      var f := FetchWithFallback(env.fetchPage, MAX_PAGES, env.pullPush);
      r.Synced? ==>
        && r.fetched == |f.posts|
        && r.upserted <= r.fetched
        && (r.upserted == r.fetched <==> UpsertAll(t, f.posts, env.upsertOk, env.now, false).failedBatches == 0)
        && r.ocrd <= OCR_BATCH_SIZE
        && (!env.hasApiKey ==> r.ocrd == 0)
        && r.hidden <= |NewIdsOf(f.posts, ExistingIds(t, f.posts, env.existingOk))|
        && (r.fallback <==> Paging(env.fetchPage, MAX_PAGES).failed)
    ensures DailySync(t, env).report.SyncFailed? <==>
      var f := FetchWithFallback(env.fetchPage, MAX_PAGES, env.pullPush);
      var u := UpsertAll(t, f.posts, env.upsertOk, env.now, false);
      f.threw || u.aborted
      || Enrich.OcrPhase(u.table, env.hasApiKey, env.unOcrd, OCR_BATCH_SIZE, env.ocr).aborted
  {
    PagingBounds(env.fetchPage, MAX_PAGES);
    var f := FetchWithFallback(env.fetchPage, MAX_PAGES, env.pullPush);
    if !f.threw {
      var newIds := NewIdsOf(f.posts, ExistingIds(t, f.posts, env.existingOk));
      var u := UpsertAll(t, f.posts, env.upsertOk, env.now, false);
      UpsertAllProperties(t, f.posts, env.upsertOk, env.now, false);
      if !u.aborted {
        var o := Enrich.OcrPhase(u.table, env.hasApiKey, env.unOcrd, OCR_BATCH_SIZE, env.ocr);
        Enrich.OcrPhaseProperties(u.table, env.hasApiKey, env.unOcrd, OCR_BATCH_SIZE, env.ocr);
        if !o.aborted {
          var toHide := ToHide(o.table, newIds);
          assert toHide <= newIds;
          SetCardinality(toHide, newIds);
        }
      }
    }
  }

  lemma SetCardinality(a: set<string>, b: set<string>)
    requires a <= b
    ensures |a| <= |b|
  {
    assert b == a + (b - a);
  }

  /** No stored post lost, no hidden post unhidden. */
  predicate KeepsHidden(a: Table, b: Table) {
    a.Keys <= b.Keys && forall k :: k in a && a[k].hidden ==> b[k].hidden
  }

  /** Every post hidden in `b` but not in `a` is a fetched post (not stored in
      `a` when the existing-id query worked) that the rule flags in `b`. */
  predicate HidesOnlyFlagged(a: Table, b: Table, posts: seq<RedditPost>, existingOk: bool) {
    forall k :: k in b && b[k].hidden && !(k in a && a[k].hidden) ==>
      && k in PostIds(posts)
      && (existingOk ==> k !in a)
      && Moderation.ShouldAutoHide(b[k].title, b[k].imageUrl, b[k].extractedName)
  }

  /** The upsert and OCR phases hide nothing and unhide nothing. */
  lemma UpsertOcrHidden(t: Table, posts: seq<RedditPost>, env: SyncEnv)
    ensures var u := UpsertAll(t, posts, env.upsertOk, env.now, false).table;
      var o := Enrich.OcrPhase(u, env.hasApiKey, env.unOcrd, OCR_BATCH_SIZE, env.ocr).table;
      && u.Keys <= t.Keys + PostIds(posts) && o.Keys == u.Keys
      && (forall k :: k in u ==> (u[k].hidden <==> k in t && t[k].hidden))
      && (forall k :: k in o ==> o[k].hidden == u[k].hidden)
  {
    var u := UpsertAll(t, posts, env.upsertOk, env.now, false).table;
    UpsertAllProperties(t, posts, env.upsertOk, env.now, false);
    var o := Enrich.OcrPhase(u, env.hasApiKey, env.unOcrd, OCR_BATCH_SIZE, env.ocr).table;
    Enrich.OcrPhaseProperties(u, env.hasApiKey, env.unOcrd, OCR_BATCH_SIZE, env.ocr);
    forall k | k in u ensures o[k].hidden == u[k].hidden {
      assert o[k].(extractedName := u[k].extractedName, extractedHeadline := u[k].extractedHeadline) == u[k];
    }
  }

  /** The auto-hide phase on top of the upsert and OCR phases. */
  lemma HiddenChain(t: Table, o: Table, posts: seq<RedditPost>, newIds: set<string>, existingOk: bool,
                    newRowsOk: bool, hideOk: bool)
    requires t.Keys <= o.Keys <= t.Keys + PostIds(posts)
    requires forall k :: k in o ==> (o[k].hidden <==> k in t && t[k].hidden)
    requires newIds <= PostIds(posts) && (existingOk ==> newIds == PostIds(posts) - t.Keys)
    ensures KeepsHidden(t, AutoHide(o, newIds, newRowsOk, hideOk).table)
    ensures HidesOnlyFlagged(t, AutoHide(o, newIds, newRowsOk, hideOk).table, posts, existingOk)
  {
    var h := AutoHide(o, newIds, newRowsOk, hideOk).table;
    AutoHideSpec(o, newIds, newRowsOk, hideOk);
    forall k | k in h && h[k].hidden && !(k in t && t[k].hidden)
      ensures Moderation.ShouldAutoHide(h[k].title, h[k].imageUrl, h[k].extractedName)
    {
      assert h[k].(hidden := o[k].hidden) == o[k];
    }
  }

  /** What the run does to the table, finished or not: no stored post is lost
      or unhidden, and a post hidden by the run is a freshly fetched post (one
      not stored before, unless the existing-id query failed) that the
      auto-hide rule flags on its final row; a failed run hides nothing. */
  lemma DailySyncTable(t: Table, env: SyncEnv)
    ensures KeepsHidden(t, DailySync(t, env).table)
    ensures HidesOnlyFlagged(t, DailySync(t, env).table,
                             FetchWithFallback(env.fetchPage, MAX_PAGES, env.pullPush).posts, env.existingOk)
    ensures DailySync(t, env).report.SyncFailed? ==> HiddenIds(DailySync(t, env).table) == HiddenIds(t)
  {
    var f := FetchWithFallback(env.fetchPage, MAX_PAGES, env.pullPush);
    if !f.threw {
      var newIds := NewIdsOf(f.posts, ExistingIds(t, f.posts, env.existingOk));
      NewIdsSpec(t, f.posts, env.existingOk);
      UpsertAllProperties(t, f.posts, env.upsertOk, env.now, false);
      UpsertOcrHidden(t, f.posts, env);
      var u := UpsertAll(t, f.posts, env.upsertOk, env.now, false);
      var o := Enrich.OcrPhase(u.table, env.hasApiKey, env.unOcrd, OCR_BATCH_SIZE, env.ocr);
      if !u.aborted && !o.aborted {
        HiddenChain(t, o.table, f.posts, newIds, env.existingOk, env.newRowsOk, env.hideOk);
      }
    }
  }

  /** The handler, phase by phase, against the store. */
  method Run(store: Store, env: SyncEnv) returns (report: SyncReport)
    modifies store
    ensures SyncResult(store.rows, report) == DailySync(old(store.rows), env)
  {
    var f := FetchPosts(env.fetchPage, MAX_PAGES, env.pullPush);
    if f.threw {
      return SyncFailed;
    }
    var existing := ExistingIds(store.rows, f.posts, env.existingOk);
    var newIds := CollectNewIds(f.posts, existing);
    var upserted, failedBatches, aborted := UpsertPhase(store, f.posts, env.upsertOk, env.now, false);
    if aborted {
      return SyncFailed;
    }
    var ocrd, ocrAborted := Enrich.RunOcrPhase(store, env.hasApiKey, env.unOcrd, OCR_BATCH_SIZE, env.ocr);
    if ocrAborted {
      return SyncFailed;
    }
    var hidden := RunAutoHide(store, newIds, env.newRowsOk, env.hideOk);
    report := Synced(|f.posts|, upserted, ocrd, hidden, f.fallback);
  }
}
