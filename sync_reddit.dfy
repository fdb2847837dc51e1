/** The older sync edge function: the same fetch and upsert as the daily sync,
    an OCR pass over at most 50 posts, no new-id tracking and no auto-hide. */
module SyncReddit {
  import opened Common
  import opened PostStore
  import opened Ingest
  import Enrich

  const MAX_PAGES: nat := 40
  const OCR_BATCH_SIZE: nat := 50

  /** The Reddit listing, the PullPush reply, which upsert batches the
      database accepts, the clock, whether an API key is configured, the
      un-processed query and the OCR services. */
  datatype SyncEnv = SyncEnv(
    fetchPage: PageFetch,
    pullPush: PushReply,
    upsertOk: nat -> bool,
    now: string,
    hasApiKey: bool,
    unOcrd: Enrich.UnOcrdQuery,
    ocr: Enrich.OcrEnv)

  /** The JSON body: `total` is the number of rows in accepted batches. */
  datatype SyncReport =
    | Synced(total: nat, ocrd: nat, fallback: bool, hasApiKey: bool)
    | SyncFailed

  datatype SyncResult = SyncResult(table: Table, report: SyncReport)

  /** The handler: fetch, upsert (a rejected batch is logged and skipped), OCR;
      an escaping error (the PullPush request throwing, a missing permalink, the
      vision call throwing) gives the 500 reply. */
  function SyncReddit(t: Table, env: SyncEnv): SyncResult {
    var f := FetchWithFallback(env.fetchPage, MAX_PAGES, env.pullPush);
    if f.threw then SyncResult(t, SyncFailed)
    else
      var u := UpsertAll(t, f.posts, env.upsertOk, env.now, false);
      if u.aborted then SyncResult(u.table, SyncFailed)
      else
        var o := Enrich.OcrPhase(u.table, env.hasApiKey, env.unOcrd, OCR_BATCH_SIZE, env.ocr);
        if o.aborted then SyncResult(o.table, SyncFailed)
        else SyncResult(o.table, Synced(u.upserted, o.ocrd, f.fallback, env.hasApiKey))
  }

  /** A finished run counts no more rows than it fetched posts, all of them
      exactly when no batch was rejected, reads at most 50 names (none without
      an API key), and reports the fallback exactly when a Reddit request
      threw; at most 40 Reddit requests are made. */
  lemma SyncRedditReport(t: Table, env: SyncEnv)
    ensures Paging(env.fetchPage, MAX_PAGES).requests <= MAX_PAGES
    ensures var r := SyncReddit(t, env).report;
      var f := FetchWithFallback(env.fetchPage, MAX_PAGES, env.pullPush);
      r.Synced? ==>
        && r.total <= |f.posts|
        && (r.total == |f.posts| <==> UpsertAll(t, f.posts, env.upsertOk, env.now, false).failedBatches == 0)
        && r.ocrd <= OCR_BATCH_SIZE
        && (!r.hasApiKey ==> r.ocrd == 0)
        && (r.fallback <==> Paging(env.fetchPage, MAX_PAGES).failed)
  {
    PagingBounds(env.fetchPage, MAX_PAGES);
    var f := FetchWithFallback(env.fetchPage, MAX_PAGES, env.pullPush);
    if !f.threw {
      var u := UpsertAll(t, f.posts, env.upsertOk, env.now, false);
      UpsertAllProperties(t, f.posts, env.upsertOk, env.now, false);
      Enrich.OcrPhaseProperties(u.table, env.hasApiKey, env.unOcrd, OCR_BATCH_SIZE, env.ocr);
    }
  }

  /** The run never loses a stored post and never touches `hidden`: stored
      posts keep their flag and every added post is visible. */
  lemma SyncRedditHidden(t: Table, env: SyncEnv)
    ensures var r := SyncReddit(t, env).table;
      && t.Keys <= r.Keys
      && r.Keys <= t.Keys + PostIds(FetchWithFallback(env.fetchPage, MAX_PAGES, env.pullPush).posts)
      && HiddenIds(r) == HiddenIds(t)
  {
    var f := FetchWithFallback(env.fetchPage, MAX_PAGES, env.pullPush);
    if !f.threw {
      var u := UpsertAll(t, f.posts, env.upsertOk, env.now, false).table;
      UpsertAllProperties(t, f.posts, env.upsertOk, env.now, false);
      var o := Enrich.OcrPhase(u, env.hasApiKey, env.unOcrd, OCR_BATCH_SIZE, env.ocr).table;
      Enrich.OcrPhaseProperties(u, env.hasApiKey, env.unOcrd, OCR_BATCH_SIZE, env.ocr);
      forall k | k in u ensures o[k].hidden == u[k].hidden {
        assert o[k].(extractedName := u[k].extractedName, extractedHeadline := u[k].extractedHeadline) == u[k];
      }
      assert HiddenIds(u) == HiddenIds(t);
    }
  }

  /** The handler against the store. */
  method Run(store: Store, env: SyncEnv) returns (report: SyncReport)
    modifies store
    ensures SyncResult(store.rows, report) == SyncReddit(old(store.rows), env)
  {
    var f := FetchPosts(env.fetchPage, MAX_PAGES, env.pullPush);
    if f.threw {
      return SyncFailed;
    }
    var upserted, failedBatches, aborted := UpsertPhase(store, f.posts, env.upsertOk, env.now, false);
    if aborted {
      return SyncFailed;
    }
    var ocrd, ocrAborted := Enrich.RunOcrPhase(store, env.hasApiKey, env.unOcrd, OCR_BATCH_SIZE, env.ocr);
    if ocrAborted {
      return SyncFailed;
    }
    report := Synced(upserted, ocrd, f.fallback, env.hasApiKey);
  }
}
