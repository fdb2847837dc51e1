/** The local sync script: up to 10 Reddit pages (what was fetched before an
    error is kept), then the PullPush archive for historical coverage, merged
    in by id, then an upsert in batches of 50 that stops at the first
    rejected batch. */
module LocalSync {
  import opened Common
  import opened PostStore
  import opened Ingest

  const MAX_PAGES: nat := 10

  /** Whether a database key is configured, the Reddit listing, the PullPush
      reply, which upsert batches the database accepts, and the clock. */
  datatype LocalEnv = LocalEnv(
    hasKey: bool,
    fetchPage: PageFetch,
    pullPush: PushReply,
    upsertOk: nat -> bool,
    now: string)

  /** How `main` ends: no key (exit 1), nothing fetched, done with the number
      of rows upserted, or an error escaping from the upsert loop. */
  datatype LocalOutcome = MissingKey | NothingFetched | Synced(upserted: nat) | Aborted

  datatype LocalResult = LocalResult(table: Table, outcome: LocalOutcome)

  /** `fetchPullPush()` inside its `try`: the mapped records, with the
      script's defaults; a non-OK status and a thrown error both give none. */
  function PullPushLocal(reply: PushReply): (r: seq<RedditPost>)
    ensures reply.PushOk? ==> r == MapFromPushLocal(reply.records)
    ensures !reply.PushOk? ==> r == []
    ensures forall i :: 0 <= i < |r| ==> r[i].permalink.Some?
  {
    if reply.PushOk? then MapFromPushLocal(reply.records) else []
  }

  /** `ppPosts.filter(p => !existingIds.has(p.id))`. */
  function Unseen(pp: seq<RedditPost>, ids: set<string>): seq<RedditPost> {
    if pp == [] then []
    else (if pp[0].id in ids then [] else [pp[0]]) + Unseen(pp[1..], ids)
  }

  lemma {:induction false} UnseenAppend(a: seq<RedditPost>, b: seq<RedditPost>, ids: set<string>)
    ensures Unseen(a + b, ids) == Unseen(a, ids) + Unseen(b, ids)
    decreases |a|
  {
    if a == [] {
      assert a + b == b;
    } else {
      assert (a + b)[1..] == a[1..] + b;
      UnseenAppend(a[1..], b, ids);
    }
  }

  /** The filter keeps the order of the posts. */
  lemma {:induction false} UnseenSubsequence(pp: seq<RedditPost>, ids: set<string>)
    ensures IsSubsequence(Unseen(pp, ids), pp)
    decreases |pp|
  {
    if pp != [] {
      UnseenSubsequence(pp[1..], ids);
      var rest := Unseen(pp[1..], ids);
      if pp[0].id !in ids {
        assert Unseen(pp, ids) == [pp[0]] + rest;
        assert Unseen(pp, ids)[1..] == rest;
      } else {
        assert Unseen(pp, ids) == rest;
        if rest != [] && rest[0] == pp[0] {
          SubsequenceElements(rest, pp[1..]);
          assert rest[0] in rest;
          UnseenMembers(pp[1..], ids);
          assert false;
        }
      }
    }
  }

  /** The filter keeps exactly the posts whose id is not among `ids`, each as
      many times as it occurs. */
  lemma {:induction false} UnseenMultiset(pp: seq<RedditPost>, ids: set<string>)
    ensures forall x :: multiset(Unseen(pp, ids))[x] == if x.id in ids then 0 else multiset(pp)[x]
    decreases |pp|
  {
    if pp != [] {
      UnseenMultiset(pp[1..], ids);
      assert pp == [pp[0]] + pp[1..];
    }
  }

  lemma UnseenMembers(pp: seq<RedditPost>, ids: set<string>)
    ensures forall x :: x in Unseen(pp, ids) <==> x in pp && x.id !in ids
  {
    UnseenMultiset(pp, ids);
    forall x ensures x in Unseen(pp, ids) <==> x in pp && x.id !in ids {
      assert multiset(Unseen(pp, ids))[x] > 0 <==> x in Unseen(pp, ids);
      assert multiset(pp)[x] > 0 <==> x in pp;
    }
  }

  /** The filter keeps exactly the posts whose id is not among `ids`, each as
      many times as it occurs, in their original order. */
  lemma UnseenSpec(pp: seq<RedditPost>, ids: set<string>)
    ensures IsSubsequence(Unseen(pp, ids), pp)
    ensures forall x :: multiset(Unseen(pp, ids))[x] == if x.id in ids then 0 else multiset(pp)[x]
    ensures forall x :: x in Unseen(pp, ids) <==> x in pp && x.id !in ids
  {
    UnseenSubsequence(pp, ids);
    UnseenMultiset(pp, ids);
    UnseenMembers(pp, ids);
  }

  /** The posts `main` upserts: the Reddit posts, then the PullPush posts
      whose id the Reddit posts do not have. */
  function AllPosts(env: LocalEnv): seq<RedditPost> {
    var reddit := Paging(env.fetchPage, MAX_PAGES).posts;
    reddit + Unseen(PullPushLocal(env.pullPush), PostIds(reddit))
  }

  /** The merge: Reddit posts first, in order, with the PullPush posts after
      them exactly as the filter by id leaves them; together the ids are those
      of both sources, and no PullPush post repeats a Reddit id. */
  lemma AllPostsSpec(env: LocalEnv)
    ensures var reddit := Paging(env.fetchPage, MAX_PAGES).posts;
      var pp := PullPushLocal(env.pullPush);
      var all := AllPosts(env);
      && reddit <= all
      && IsSubsequence(all[|reddit|..], pp)
      && (forall x :: x in all[|reddit|..] <==> x in pp && x.id !in PostIds(reddit))
      && PostIds(all) == PostIds(reddit) + PostIds(pp)
  {
    var reddit := Paging(env.fetchPage, MAX_PAGES).posts;
    var pp := PullPushLocal(env.pullPush);
    var rest := Unseen(pp, PostIds(reddit));
    UnseenSpec(pp, PostIds(reddit));
    assert AllPosts(env)[|reddit|..] == rest;
    PostIdsAppend(reddit, rest);
  }

  /** The script's `main`. */
  function LocalSync(t: Table, env: LocalEnv): LocalResult {
    if !env.hasKey then LocalResult(t, MissingKey)
    else
      var posts := AllPosts(env);
      if posts == [] then LocalResult(t, NothingFetched)
      else
        var u := UpsertAll(t, posts, env.upsertOk, env.now, true);
        if u.aborted then LocalResult(u.table, Aborted)
        else LocalResult(u.table, Synced(u.upserted))
  }

  /** Nothing is written unless there is a key and something was fetched; a
      finished run upserted every merged post, and its table is what one
      upsert of all of them leaves; a run stops exactly when a batch was
      rejected or a post had no permalink. */
  lemma LocalSyncSpec(t: Table, env: LocalEnv)
    ensures var r := LocalSync(t, env);
      && (r.outcome.MissingKey? <==> !env.hasKey)
      && (r.outcome.NothingFetched? <==> env.hasKey && AllPosts(env) == [])
      && (r.outcome.MissingKey? || r.outcome.NothingFetched? ==> r.table == t)
      && (r.outcome.Synced? ==>
            && r.outcome.upserted == |AllPosts(env)|
            && ToRows(AllPosts(env), env.now).Some?
            && r.table == UpsertRows(t, ToRows(AllPosts(env), env.now).value))
      && t.Keys <= r.table.Keys
      && (forall k :: k in t ==> r.table[k].hidden == t[k].hidden)
  {
    var posts := AllPosts(env);
    var bs := Batches(posts, UPSERT_BATCH_SIZE);
    UpsertAllProperties(t, posts, env.upsertOk, env.now, true);
    UpsertFromStrict(t, bs, 0, env.upsertOk, env.now, 0, 0);
  }

  /** The filter as a loop that pushes each kept post. */
  method FilterUnseen(pp: seq<RedditPost>, ids: set<string>) returns (r: seq<RedditPost>)
    ensures r == Unseen(pp, ids)
  {
    r := [];
    var i := 0;
    while i < |pp|
      invariant i <= |pp|
      invariant r == Unseen(pp[..i], ids)
    {
      assert pp[..i + 1] == pp[..i] + [pp[i]];
      UnseenAppend(pp[..i], [pp[i]], ids);
      if pp[i].id !in ids {
        r := r + [pp[i]];
      }
      i := i + 1;
    }
    assert pp[..i] == pp;
  }

  /** Fetch, merge and upsert against the store. */
  method Run(store: Store, env: LocalEnv) returns (outcome: LocalOutcome)
    modifies store
    ensures LocalResult(store.rows, outcome) == LocalSync(old(store.rows), env)
  {
    if !env.hasKey {
      return MissingKey;
    }
    var paging := FetchPages(env.fetchPage, MAX_PAGES);
    var ppPosts := PullPushLocal(env.pullPush);
    var newPosts := FilterUnseen(ppPosts, PostIds(paging.posts));
    var allPosts := paging.posts + newPosts;
    if |allPosts| == 0 {
      return NothingFetched;
    }
    var upserted, failedBatches, aborted := UpsertPhase(store, allPosts, env.upsertOk, env.now, true);
    if aborted {
      return Aborted;
    }
    outcome := Synced(upserted);
  }
}
