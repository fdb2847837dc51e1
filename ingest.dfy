/** Ingestion shared by the three sync jobs: the post records the Reddit
    listing and the PullPush archive give, the image-URL classifier, the
    permalink-to-URL rule, cursor paging over the Reddit listing, and the
    upsert of the collected posts in batches of 50. */
module Ingest {
  import opened Common
  import opened Text
  import opened PostStore

  const UPSERT_BATCH_SIZE: nat := 50
  const REDDIT_ORIGIN: string := "https://reddit.com"

  /** A post as a sync job holds it before the upsert. `permalink` is absent
      when PullPush gave neither a `permalink` nor a `full_link`. */
  datatype RedditPost = RedditPost(
    id: string,
    title: string,
    permalink: Option<string>,
    score: int,
    createdUtc: int,
    author: string,
    postHint: Option<string>,
    dest: Option<string>)

  // ---------------------------------------------------------------------------
  // PullPush records

  /** A PullPush submission: every field may be missing. */
  datatype PushRecord = PushRecord(
    id: string,
    title: string,
    permalink: Option<string>,
    fullLink: Option<string>,
    score: Option<int>,
    createdUtc: Option<int>,
    author: Option<string>,
    postHint: Option<string>,
    dest: Option<string>)

  /** The mapping of the two edge functions: `permalink || full_link`, which
      may still be missing; score and creation time default to 0, the author to "". */
  function FromPush(p: PushRecord): (r: RedditPost)
    ensures r.id == p.id && r.title == p.title && r.postHint == p.postHint && r.dest == p.dest
    ensures Truthy(p.permalink) ==> r.permalink == p.permalink
    ensures !Truthy(p.permalink) ==> r.permalink == p.fullLink
    ensures r.score == p.score.GetOr(0) && r.createdUtc == p.createdUtc.GetOr(0)
    ensures r.author == p.author.GetOr("")
  {
    RedditPost(p.id, p.title, Or(p.permalink, p.fullLink), p.score.GetOr(0),
      p.createdUtc.GetOr(0), p.author.GetOr(""), p.postHint, p.dest)
  }

  /** The mapping of the local script: `permalink || full_link || ''`. */
  function FromPushLocal(p: PushRecord): (r: RedditPost)
    ensures r.permalink.Some?
    ensures Truthy(p.permalink) ==> r.permalink == p.permalink
    ensures !Truthy(p.permalink) && Truthy(p.fullLink) ==> r.permalink == p.fullLink
    ensures !Truthy(p.permalink) && !Truthy(p.fullLink) ==> r.permalink == Some("")
    ensures r.(permalink := FromPush(p).permalink) == FromPush(p)
  {
    FromPush(p).(permalink := Or(Or(p.permalink, p.fullLink), Some("")))
  }

  function MapFromPush(ps: seq<PushRecord>): (r: seq<RedditPost>)
    ensures |r| == |ps| && forall i :: 0 <= i < |ps| ==> r[i] == FromPush(ps[i])
  {
    if ps == [] then [] else [FromPush(ps[0])] + MapFromPush(ps[1..])
  }

  function MapFromPushLocal(ps: seq<PushRecord>): (r: seq<RedditPost>)
    ensures |r| == |ps| && forall i :: 0 <= i < |ps| ==> r[i] == FromPushLocal(ps[i])
    ensures forall i :: 0 <= i < |r| ==> r[i].permalink.Some?
  {
    if ps == [] then [] else [FromPushLocal(ps[0])] + MapFromPushLocal(ps[1..])
  }

  /** What the PullPush request gives: its records, a non-OK status (which the
      code turns into no posts) or a thrown error. */
  datatype PushReply = PushOk(records: seq<PushRecord>) | PushNotOk | PushThrew

  // ---------------------------------------------------------------------------
  // The image classifier

  /** The characters `.` does not match in a regular expression. */
  predicate IsLineTerminator(c: char) {
    c == '\n' || c == '\r' || c == '\U{2028}' || c == '\U{2029}'
  }

  /** What `(\?.*)?$` accepts: nothing, or `?` followed by a single line. */
  predicate QueryTail(s: string) {
    s == [] || (s[0] == '?' && forall k :: 1 <= k < |s| ==> !IsLineTerminator(s[k]))
  }

  /** At position `p` of `d` stand a dot, the extension `ext` in any letter
      case, and a query tail reaching the end. */
  predicate ExtAt(d: string, p: nat, ext: string) {
    p < |d| && d[p] == '.' && OccursAt(ToLower(d), ext, p + 1) && QueryTail(d[p + 1 + |ext|..])
  }

  predicate ImageExtAt(d: string, p: nat) {
    ExtAt(d, p, "jpg") || ExtAt(d, p, "jpeg") || ExtAt(d, p, "png") || ExtAt(d, p, "webp")
  }

  /** `/\.(jpg|jpeg|png|webp)(\?.*)?$/i.test(d)`. */
  predicate HasImageExtension(d: string) {
    exists p :: 0 <= p < |d| && ImageExtAt(d, p)
  }

  /** `getImageUrl`: the post's destination when it is an image, or None. */
  function GetImageUrl(post: RedditPost): (r: Option<string>)
    ensures r.Some? ==> r == post.dest && r.value != ""
  {
    if post.postHint == Some("image") && Truthy(post.dest) then post.dest
    else
      var dest := post.dest.GetOr("");
      ContainsLength(dest, "i.redd.it");
      ContainsLength(dest, "i.imgur.com");
      if HasImageExtension(dest) || Contains(dest, "i.redd.it") || Contains(dest, "i.imgur.com") then Some(dest)
      else None
  }

  /** The three rules, in both directions: an image hint with a destination,
      an image extension, or one of the two image hosts; nothing else. */
  lemma GetImageUrlRules(post: RedditPost)
    ensures GetImageUrl(post).Some? <==>
      ((post.postHint == Some("image") && Truthy(post.dest))
       || (post.dest.Some? &&
           (HasImageExtension(post.dest.value)
            || Contains(post.dest.value, "i.redd.it")
            || Contains(post.dest.value, "i.imgur.com"))))
  {
    ContainsLength("", "i.redd.it");
    ContainsLength("", "i.imgur.com");
  }

  /** The extension test ignores letter case and accepts a query string; an
      extension outside the four, such as `.gif`, is no image. */
  lemma ImageExtensionExample()
    ensures GetImageUrl(RedditPost("a", "t", Some("/r/x"), 0, 0, "u", None, Some("x.JPG?w=1"))) == Some("x.JPG?w=1")
    ensures GetImageUrl(RedditPost("a", "t", Some("/r/x"), 0, 0, "u", None, Some("x.gif"))) == None
  {
    var d := "x.JPG?w=1";
    assert ToLower(d)[2..5] == "jpg";
    assert d[5..] == "?w=1";
    assert ExtAt(d, 1, "jpg");
    assert ImageExtAt(d, 1);
    GifIsNoImage();
  }

  lemma GifIsNoImage()
    ensures !HasImageExtension("x.gif")
    ensures !Contains("x.gif", "i.redd.it") && !Contains("x.gif", "i.imgur.com")
  {
    var g := "x.gif";
    assert ToLower(g) == g;
    forall p | 0 <= p < |g|
      ensures !ImageExtAt(g, p)
    {
      if p == 1 {
        assert g[2..5] == "gif";
      } else {
        assert g[0] == 'x' && g[2] == 'g' && g[3] == 'i' && g[4] == 'f';
      }
    }
    ContainsLength(g, "i.redd.it");
    ContainsLength(g, "i.imgur.com");
  }

  /** A destination on either image host is an image without an extension or a hint. */
  lemma ImageHostExample()
    ensures GetImageUrl(RedditPost("a", "t", Some("/r/x"), 0, 0, "u", None, Some("i.redd.it/q"))) == Some("i.redd.it/q")
    ensures GetImageUrl(RedditPost("a", "t", Some("/r/x"), 0, 0, "u", None, Some("https://i.imgur.com/q"))) == Some("https://i.imgur.com/q")
  {
    assert "i.redd.it" <= "i.redd.it/q";
    var d := "https://i.imgur.com/q";
    assert d[8..19] == "i.imgur.com";
    assert OccursAt(d, "i.imgur.com", 8);
    ContainsAt(d, "i.imgur.com");
  }

  // ---------------------------------------------------------------------------
  // Rows

  /** `permalink.startsWith('http') ? permalink : 'https://reddit.com' + permalink`. */
  function NormaliseUrl(permalink: string): (url: string)
    ensures StartsWith(url, "http")
    ensures url == permalink || url == REDDIT_ORIGIN + permalink
    ensures StartsWith(permalink, "http") <==> url == permalink
  {
    if StartsWith(permalink, "http") then permalink else REDDIT_ORIGIN + permalink
  }

  /** Normalising an absolute URL changes nothing. */
  lemma NormaliseUrlIdempotent(permalink: string)
    ensures NormaliseUrl(NormaliseUrl(permalink)) == NormaliseUrl(permalink)
  {
  }

  /** A Reddit permalink such as `/r/x/comments/1/` becomes a reddit.com URL. */
  lemma NormaliseUrlRelative(permalink: string)
    requires StartsWith(permalink, "/")
    ensures NormaliseUrl(permalink) == REDDIT_ORIGIN + permalink
    ensures StartsWith(NormaliseUrl(permalink), "https://reddit.com/")
  {
    assert permalink[0] == '/';
    assert (REDDIT_ORIGIN + permalink)[..|"https://reddit.com/"|] == "https://reddit.com/";
  }

  /** The row a post is upserted as; None where `post.permalink.startsWith`
      would throw because the permalink is missing. */
  function ToRow(post: RedditPost, now: string): (r: Option<Row>)
    ensures r.None? <==> post.permalink.None?
    ensures r.Some? ==>
      (r.value.id == post.id && r.value.url == NormaliseUrl(post.permalink.value)
       && r.value.imageUrl == GetImageUrl(post) && r.value.syncedAt == now)
  {
    match post.permalink
    case None => None
    case Some(p) =>
      Some(Row(post.id, post.title, NormaliseUrl(p), post.score, post.createdUtc, post.author, GetImageUrl(post), now))
  }

  /** The rows of a batch, in order; None when some post has no permalink. */
  function ToRows(posts: seq<RedditPost>, now: string): (r: Option<seq<Row>>)
    ensures r.Some? ==> |r.value| == |posts|
  {
    if posts == [] then Some([])
    else
      var head := ToRow(posts[0], now);
      var tail := ToRows(posts[1..], now);
      if head.Some? && tail.Some? then Some([head.value] + tail.value) else None
  }

  /** The rows are the posts' rows, position by position, and there are none
      exactly when some post has no permalink. */
  lemma {:induction false} ToRowsSpec(posts: seq<RedditPost>, now: string)
    ensures ToRows(posts, now).None? <==> exists i :: 0 <= i < |posts| && posts[i].permalink.None?
    ensures ToRows(posts, now).Some? ==>
      forall i :: 0 <= i < |posts| ==> Some(ToRows(posts, now).value[i]) == ToRow(posts[i], now)
  {
    if posts != [] {
      ToRowsSpec(posts[1..], now);
      assert forall i :: 1 <= i < |posts| ==> posts[i] == posts[1..][i - 1];
      if ToRows(posts[1..], now).None? {
        var j :| 0 <= j < |posts[1..]| && posts[1..][j].permalink.None?;
        assert posts[j + 1].permalink.None?;
      }
    }
  }

  /** Mapping two batches is mapping their concatenation. */
  lemma {:induction false} ToRowsAppend(a: seq<RedditPost>, b: seq<RedditPost>, now: string)
    ensures ToRows(a + b, now) ==
      if ToRows(a, now).Some? && ToRows(b, now).Some? then Some(ToRows(a, now).value + ToRows(b, now).value) else None
    decreases |a|
  {
    var ab := a + b;
    if a == [] {
      assert ab == b;
      if ToRows(b, now).Some? {
        assert [] + ToRows(b, now).value == ToRows(b, now).value;
      }
    } else {
      assert ab[0] == a[0];
      assert ab[1..] == a[1..] + b;
      ToRowsAppend(a[1..], b, now);
      if ToRows(a, now).Some? && ToRows(b, now).Some? {
        var x := ToRow(a[0], now).value;
        var ra1, rb := ToRows(a[1..], now).value, ToRows(b, now).value;
        assert ToRows(ab, now) == Some([x] + (ra1 + rb));
        assert [x] + (ra1 + rb) == ([x] + ra1) + rb;
      }
    }
  }

  /** The ids of the rows are the ids of the posts. */
  lemma {:induction false} ToRowsIds(posts: seq<RedditPost>, now: string)
    requires ToRows(posts, now).Some?
    ensures Ids(ToRows(posts, now).value) == set p | p in posts :: p.id
  {
    ToRowsSpec(posts, now);
    var rows := ToRows(posts, now).value;
    forall x | x in Ids(rows) ensures x in set p | p in posts :: p.id {
      var r :| r in rows && r.id == x;
      var i :| 0 <= i < |rows| && rows[i] == r;
      assert Some(rows[i]) == ToRow(posts[i], now);
      assert posts[i] in posts;
    }
    forall x | x in (set p | p in posts :: p.id) ensures x in Ids(rows) {
      var p :| p in posts && p.id == x;
      var i :| 0 <= i < |posts| && posts[i] == p;
      assert Some(rows[i]) == ToRow(posts[i], now);
      assert rows[i] in rows;
    }
  }

  // ---------------------------------------------------------------------------
  // Paging over the Reddit listing

  /** One listing page: its posts and the raw `after` cursor. */
  datatype Page = Page(posts: seq<RedditPost>, after: Option<string>)

  /** The listing, requested with an optional cursor; None when the request
      throws (a non-OK status or a broken response). */
  type PageFetch = Option<string> -> Option<Page>

  /** What the paging loop leaves: the posts collected, the number of
      requests made, and whether a request threw. */
  datatype PagingOutcome = PagingOutcome(posts: seq<RedditPost>, requests: nat, failed: bool)

  /** The paging loop from request number `page`, with cursor `cursor` and the
      posts `acc` collected so far. */
  function PagingFrom(fetch: PageFetch, cursor: Option<string>, page: nat, maxPages: nat, acc: seq<RedditPost>): PagingOutcome
    decreases maxPages - page
  {
    if page >= maxPages then PagingOutcome(acc, page, false)
    else
      match fetch(cursor)
      case None => PagingOutcome(acc, page + 1, true)
      case Some(p) =>
        var next := OrNull(p.after);
        if next.None? then PagingOutcome(acc + p.posts, page + 1, false)
        else PagingFrom(fetch, next, page + 1, maxPages, acc + p.posts)
  }

  /** The whole paging loop: first request without a cursor, at most `maxPages` requests. */
  function Paging(fetch: PageFetch, maxPages: nat): PagingOutcome {
    PagingFrom(fetch, None, 0, maxPages, [])
  }

  /** The responses the loop receives, in order: it stops after `left`
      requests, at the first request that throws, and at the first page
      without a cursor; every other page's cursor is the next request's. */
  function Responses(fetch: PageFetch, cursor: Option<string>, left: nat): seq<Option<Page>>
    decreases left
  {
    if left == 0 then []
    else
      var r := fetch(cursor);
      if r.None? || OrNull(r.value.after).None? then [r]
      else [r] + Responses(fetch, OrNull(r.value.after), left - 1)
  }

  /** The posts of the pages that came back, concatenated in order. */
  function PostsOf(rs: seq<Option<Page>>): seq<RedditPost> {
    if rs == [] then [] else (if rs[0].Some? then rs[0].value.posts else []) + PostsOf(rs[1..])
  }

  /** The shape of the trace: never more than `left` requests, at least one
      when any is allowed; every response but the last is a page with a
      cursor; fewer than `left` requests means the last one threw or had no cursor. */
  lemma {:induction false} ResponsesShape(fetch: PageFetch, cursor: Option<string>, left: nat)
    ensures |Responses(fetch, cursor, left)| <= left
    ensures left > 0 ==> |Responses(fetch, cursor, left)| > 0
    ensures forall i :: 0 <= i < |Responses(fetch, cursor, left)| - 1 ==>
      Responses(fetch, cursor, left)[i].Some? && Truthy(Responses(fetch, cursor, left)[i].value.after)
    ensures 0 < |Responses(fetch, cursor, left)| < left ==>
      var last := Responses(fetch, cursor, left)[|Responses(fetch, cursor, left)| - 1];
      last.None? || !Truthy(last.value.after)
    decreases left
  {
    if left > 0 {
      var r := fetch(cursor);
      if !(r.None? || OrNull(r.value.after).None?) {
        var rest := Responses(fetch, OrNull(r.value.after), left - 1);
        ResponsesShape(fetch, OrNull(r.value.after), left - 1);
        assert Responses(fetch, cursor, left) == [r] + rest;
        forall i | 0 <= i < |[r] + rest| - 1
          ensures ([r] + rest)[i].Some? && Truthy(([r] + rest)[i].value.after)
        {
          if i > 0 { assert ([r] + rest)[i] == rest[i - 1]; }
        }
      }
    }
  }

  /** The paging loop in terms of its trace: the posts are those of every page
      that came back, in order; the request count is the trace's length; the
      run failed exactly when the last request threw. */
  lemma {:induction false} PagingFromTrace(fetch: PageFetch, cursor: Option<string>, page: nat, maxPages: nat, acc: seq<RedditPost>)
    requires page <= maxPages
    ensures var rs := Responses(fetch, cursor, maxPages - page);
      PagingFrom(fetch, cursor, page, maxPages, acc)
        == PagingOutcome(acc + PostsOf(rs), page + |rs|, |rs| > 0 && rs[|rs| - 1].None?)
    decreases maxPages - page
  {
    var rs := Responses(fetch, cursor, maxPages - page);
    if page == maxPages {
      assert acc + [] == acc;
    } else {
      var r := fetch(cursor);
      if r.None? {
        assert rs == [r];
        assert PostsOf(rs) == [] by { assert PostsOf(rs[1..]) == []; }
        assert acc + [] == acc;
      } else if OrNull(r.value.after).None? {
        assert rs == [r];
        assert PostsOf(rs) == r.value.posts by { assert rs[1..] == []; }
      } else {
        var next := OrNull(r.value.after);
        var rest := Responses(fetch, next, maxPages - (page + 1));
        PagingFromTrace(fetch, next, page + 1, maxPages, acc + r.value.posts);
        assert rs == [r] + rest;
        TraceCons(r.value, rest, acc, page);
      }
    }
  }

  /** A page with a cursor in front of the rest of the trace: its posts come
      first and it counts one request. */
  lemma TraceCons(p: Page, rest: seq<Option<Page>>, acc: seq<RedditPost>, page: nat)
    ensures var rs := [Some(p)] + rest;
      && acc + p.posts + PostsOf(rest) == acc + PostsOf(rs)
      && page + 1 + |rest| == page + |rs|
      && ((|rest| > 0 && rest[|rest| - 1].None?) <==> (|rs| > 0 && rs[|rs| - 1].None?))
  {
    var rs := [Some(p)] + rest;
    assert rs[1..] == rest;
    assert PostsOf(rs) == p.posts + PostsOf(rest);
    if |rest| > 0 {
      assert rs[|rs| - 1] == rest[|rest| - 1];
    }
  }

  /** The paging loop makes at most `maxPages` requests, at least one when
      any is allowed, and stops early only at a page without a cursor or a
      request that threw. */
  lemma PagingBounds(fetch: PageFetch, maxPages: nat)
    ensures Paging(fetch, maxPages).requests <= maxPages
    ensures maxPages > 0 ==> Paging(fetch, maxPages).requests >= 1
    ensures var rs := Responses(fetch, None, maxPages);
      && Paging(fetch, maxPages).posts == PostsOf(rs)
      && Paging(fetch, maxPages).requests == |rs|
      && (Paging(fetch, maxPages).failed <==> (|rs| > 0 && rs[|rs| - 1].None?))
      && (0 < Paging(fetch, maxPages).requests < maxPages ==>
            rs[|rs| - 1].None? || !Truthy(rs[|rs| - 1].value.after))
  {
    PagingFromTrace(fetch, None, 0, maxPages, []);
    ResponsesShape(fetch, None, maxPages);
    assert [] + PostsOf(Responses(fetch, None, maxPages)) == PostsOf(Responses(fetch, None, maxPages));
  }

  /** The paging loop: `allPosts.push(...result.posts)`, advance the cursor,
      stop at the first page without one; a request that throws ends the loop. */
  method FetchPages(fetch: PageFetch, maxPages: nat) returns (o: PagingOutcome)
    ensures o == Paging(fetch, maxPages)
  {
    var after: Option<string> := None;
    var allPosts: seq<RedditPost> := [];
    var page: nat := 0;
    while page < maxPages
      invariant page <= maxPages
      invariant Paging(fetch, maxPages) == PagingFrom(fetch, after, page, maxPages, allPosts)
      decreases maxPages - page
    {
      var result := fetch(after);
      if result.None? {
        return PagingOutcome(allPosts, page + 1, true);
      }
      allPosts := allPosts + result.value.posts;
      after := OrNull(result.value.after);
      if after.None? {
        return PagingOutcome(allPosts, page + 1, false);
      }
      page := page + 1;
    }
    return PagingOutcome(allPosts, page, false);
  }

  // ---------------------------------------------------------------------------
  // Reddit first, PullPush on failure (the two edge functions)

  /** The posts of the PullPush fallback: its mapped records, none on a
      non-OK status, None when the request throws (nothing catches that). */
  function PullPushPosts(reply: PushReply): (r: Option<seq<RedditPost>>)
    ensures r.None? <==> reply.PushThrew?
    ensures reply.PushOk? ==> r == Some(MapFromPush(reply.records))
    ensures reply.PushNotOk? ==> r == Some([])
  {
    match reply
    case PushOk(records) => Some(MapFromPush(records))
    case PushNotOk => Some([])
    case PushThrew => None
  }

  /** Phase 1: the posts, whether the fallback was used, and whether the
      fallback threw. */
  datatype FetchedPosts = FetchedPosts(posts: seq<RedditPost>, fallback: bool, threw: bool)

  function FetchWithFallback(fetch: PageFetch, maxPages: nat, pullPush: PushReply): FetchedPosts {
    var o := Paging(fetch, maxPages);
    if !o.failed then FetchedPosts(o.posts, false, false)
    else
      match PullPushPosts(pullPush)
      case None => FetchedPosts([], true, true)
      case Some(ps) => FetchedPosts(ps, true, false)
  }

  /** The fallback is used exactly when a Reddit request threw, and then every
      page already collected is dropped for the PullPush posts; otherwise the
      posts are those of every page, in order. */
  lemma FetchWithFallbackSpec(fetch: PageFetch, maxPages: nat, pullPush: PushReply)
    ensures var f := FetchWithFallback(fetch, maxPages, pullPush);
      var rs := Responses(fetch, None, maxPages);
      && (f.fallback <==> |rs| > 0 && rs[|rs| - 1].None?)
      && (!f.fallback ==> f.posts == PostsOf(rs) && !f.threw)
      && (f.fallback ==> (f.threw <==> pullPush.PushThrew?))
      && (f.fallback && !f.threw ==> f.posts == PullPushPosts(pullPush).value)
  {
    PagingBounds(fetch, maxPages);
  }

  /** Phase 1 of both edge functions: the paging loop inside a `try` whose
      `catch` swaps in the PullPush posts. */
  method FetchPosts(fetch: PageFetch, maxPages: nat, pullPush: PushReply) returns (f: FetchedPosts)
    ensures f == FetchWithFallback(fetch, maxPages, pullPush)
  {
    var o := FetchPages(fetch, maxPages);
    if !o.failed {
      return FetchedPosts(o.posts, false, false);
    }
    var fallback := PullPushPosts(pullPush);
    if fallback.None? {
      return FetchedPosts([], true, true);
    }
    f := FetchedPosts(fallback.value, true, false);
  }

  // ---------------------------------------------------------------------------
  // The batched upsert

  /** What the upsert loop leaves: the table, the number of rows in accepted
      batches, the number of rejected batches, and whether the loop was cut
      short (a missing permalink, or a rejected batch where that aborts). */
  datatype UpsertSummary = UpsertSummary(table: Table, upserted: nat, failedBatches: nat, aborted: bool)

  /** One turn of the upsert loop on `batch`, the `k`-th: a batch with a post
      that has no permalink ends the loop; an accepted one is upserted and its
      rows counted; a rejected one is counted and ends the loop where
      `abortOnError` says so. `aborted` says whether the loop stops here.
      The database rejects every batch whose rows repeat an id, and beyond
      that batch `k` is accepted when `ok(k)`. */
  function BatchTurn(t: Table, batch: seq<RedditPost>, k: nat, ok: nat -> bool, now: string,
                     abortOnError: bool, upserted: nat, failed: nat): UpsertSummary
  {
    match ToRows(batch, now)
    case None => UpsertSummary(t, upserted, failed, true)
    case Some(rows) =>
      if ok(k) && DistinctIds(rows) then UpsertSummary(UpsertRows(t, rows), upserted + |rows|, failed, false)
      else UpsertSummary(t, upserted, failed + 1, abortOnError)
  }

  /** A batch that carries one post twice (a post seen on two pages, say) is
      rejected whatever `ok` says: the table is left alone and the batch
      counted as failed. */
  lemma RepeatedIdRejected(t: Table, batch: seq<RedditPost>, k: nat, ok: nat -> bool, now: string,
                           abortOnError: bool, upserted: nat, failed: nat, i: nat, j: nat)
    requires i < j < |batch| && batch[i].id == batch[j].id
    requires ToRows(batch, now).Some?
    ensures var s := BatchTurn(t, batch, k, ok, now, abortOnError, upserted, failed);
      s.table == t && s.upserted == upserted && s.failedBatches == failed + 1 && s.aborted == abortOnError
  {
    ToRowsSpec(batch, now);
    var rows := ToRows(batch, now).value;
    assert Some(rows[i]) == ToRow(batch[i], now) && Some(rows[j]) == ToRow(batch[j], now);
    assert !DistinctIds(rows);
  }

  /** The upsert loop over the remaining `batches`, `k` being the index of the
      first of them; `ok(k)` says whether the database accepts batch `k`. */
  function UpsertFrom(t: Table, batches: seq<seq<RedditPost>>, k: nat, ok: nat -> bool, now: string,
                      abortOnError: bool, upserted: nat, failed: nat): UpsertSummary
    decreases |batches|
  {
    if batches == [] then UpsertSummary(t, upserted, failed, false)
    else
      var s := BatchTurn(t, batches[0], k, ok, now, abortOnError, upserted, failed);
      if s.aborted then s
      else UpsertFrom(s.table, batches[1..], k + 1, ok, now, abortOnError, s.upserted, s.failedBatches)
  }

  /** The whole upsert loop over `posts` cut into batches of 50. */
  function UpsertAll(t: Table, posts: seq<RedditPost>, ok: nat -> bool, now: string, abortOnError: bool): UpsertSummary {
    UpsertFrom(t, Batches(posts, UPSERT_BATCH_SIZE), 0, ok, now, abortOnError, 0, 0)
  }

  /** The count only grows by accepted batches: it never exceeds the number of
      posts, and it reaches it exactly when the loop ran to the end with no
      batch rejected. */
  lemma {:induction false} UpsertFromCounts(t: Table, batches: seq<seq<RedditPost>>, k: nat, ok: nat -> bool, now: string,
                                            abortOnError: bool, upserted: nat, failed: nat)
    requires forall i :: 0 <= i < |batches| ==> |batches[i]| > 0
    ensures var s := UpsertFrom(t, batches, k, ok, now, abortOnError, upserted, failed);
      && upserted <= s.upserted <= upserted + |Flatten(batches)|
      && failed <= s.failedBatches
      && (s.upserted == upserted + |Flatten(batches)| <==> (!s.aborted && s.failedBatches == failed))
    decreases |batches|
  {
    if batches != [] {
      var rest := batches[1..];
      assert forall i :: 0 <= i < |rest| ==> |rest[i]| > 0 by {
        forall i | 0 <= i < |rest| ensures |rest[i]| > 0 { assert rest[i] == batches[i + 1]; }
      }
      var s := BatchTurn(t, batches[0], k, ok, now, abortOnError, upserted, failed);
      if !s.aborted {
        UpsertFromCounts(s.table, rest, k + 1, ok, now, abortOnError, s.upserted, s.failedBatches);
      }
    }
  }

  /** The ids of a list of posts. */
  function PostIds(posts: seq<RedditPost>): set<string> {
    set p | p in posts :: p.id
  }

  lemma PostIdsAppend(a: seq<RedditPost>, b: seq<RedditPost>)
    ensures PostIds(a + b) == PostIds(a) + PostIds(b)
  {
    assert forall p :: p in a + b <==> p in a || p in b;
  }

  /** The upsert loop keeps every stored id and adds only ids of the posts. */
  lemma {:induction false} UpsertFromKeys(t: Table, batches: seq<seq<RedditPost>>, k: nat, ok: nat -> bool, now: string,
                                          abortOnError: bool, upserted: nat, failed: nat)
    ensures t.Keys <= UpsertFrom(t, batches, k, ok, now, abortOnError, upserted, failed).table.Keys
    ensures UpsertFrom(t, batches, k, ok, now, abortOnError, upserted, failed).table.Keys <= t.Keys + PostIds(Flatten(batches))
    decreases |batches|
  {
    if batches != [] {
      var rest := batches[1..];
      assert Flatten(batches) == batches[0] + Flatten(rest);
      PostIdsAppend(batches[0], Flatten(rest));
      var r := ToRows(batches[0], now);
      var s := BatchTurn(t, batches[0], k, ok, now, abortOnError, upserted, failed);
      if r.Some? && ok(k) {
        ToRowsIds(batches[0], now);
        UpsertRowsKeys(t, r.value);
      }
      if !s.aborted {
        UpsertFromKeys(s.table, rest, k + 1, ok, now, abortOnError, s.upserted, s.failedBatches);
      }
    }
  }

  /** The upsert loop never changes the identity or moderation columns of a
      post already stored, and every post it adds starts visible. */
  lemma {:induction false} UpsertFromKeepsModeration(t: Table, batches: seq<seq<RedditPost>>, k: nat, ok: nat -> bool, now: string,
                                                     abortOnError: bool, upserted: nat, failed: nat)
    ensures var s := UpsertFrom(t, batches, k, ok, now, abortOnError, upserted, failed).table;
      forall id :: id in t ==>
        id in s && s[id].hidden == t[id].hidden
        && s[id].extractedName == t[id].extractedName
        && s[id].extractedHeadline == t[id].extractedHeadline
    ensures var s := UpsertFrom(t, batches, k, ok, now, abortOnError, upserted, failed).table;
      forall id :: id in s && id !in t ==> !s[id].hidden
    decreases |batches|
  {
    if batches != [] {
      var rest := batches[1..];
      var r := ToRows(batches[0], now);
      var s := BatchTurn(t, batches[0], k, ok, now, abortOnError, upserted, failed);
      if r.Some? && ok(k) {
        UpsertPreservesModeration(t, r.value);
      }
      if !s.aborted {
        UpsertFromKeepsModeration(s.table, rest, k + 1, ok, now, abortOnError, s.upserted, s.failedBatches);
      }
    }
  }

  /** The count of rejected batches never goes down. */
  lemma {:induction false} UpsertFromCountsFailed(t: Table, batches: seq<seq<RedditPost>>, k: nat, ok: nat -> bool, now: string,
                                                  abortOnError: bool, upserted: nat, failed: nat)
    ensures failed <= UpsertFrom(t, batches, k, ok, now, abortOnError, upserted, failed).failedBatches
    decreases |batches|
  {
    if batches != [] {
      var s := BatchTurn(t, batches[0], k, ok, now, abortOnError, upserted, failed);
      if !s.aborted {
        UpsertFromCountsFailed(s.table, batches[1..], k + 1, ok, now, abortOnError, s.upserted, s.failedBatches);
      }
    }
  }

  /** Where a rejected batch ends the loop, a loop that was not cut short
      had no batch rejected. */
  lemma {:induction false} UpsertFromStrict(t: Table, batches: seq<seq<RedditPost>>, k: nat, ok: nat -> bool, now: string,
                                            upserted: nat, failed: nat)
    ensures var s := UpsertFrom(t, batches, k, ok, now, true, upserted, failed);
      !s.aborted ==> s.failedBatches == failed
    decreases |batches|
  {
    if batches != [] {
      var s := BatchTurn(t, batches[0], k, ok, now, true, upserted, failed);
      if !s.aborted {
        UpsertFromStrict(s.table, batches[1..], k + 1, ok, now, s.upserted, s.failedBatches);
      }
    }
  }

  /** When the loop runs to the end with no batch rejected, batching changes
      nothing: the table is what one upsert of all the rows would leave. */
  lemma {:induction false} UpsertFromComplete(t: Table, batches: seq<seq<RedditPost>>, k: nat, ok: nat -> bool, now: string,
                                              abortOnError: bool, upserted: nat, failed: nat)
    requires var s := UpsertFrom(t, batches, k, ok, now, abortOnError, upserted, failed);
      !s.aborted && s.failedBatches == failed
    ensures ToRows(Flatten(batches), now).Some?
    ensures UpsertFrom(t, batches, k, ok, now, abortOnError, upserted, failed).table
      == UpsertRows(t, ToRows(Flatten(batches), now).value)
    decreases |batches|
  {
    if batches == [] {
      assert ToRows([], now) == Some([]);
    } else {
      var rest := batches[1..];
      assert Flatten(batches) == batches[0] + Flatten(rest);
      ToRowsAppend(batches[0], Flatten(rest), now);
      var s := BatchTurn(t, batches[0], k, ok, now, abortOnError, upserted, failed);
      CompleteTurn(t, batches, k, ok, now, abortOnError, upserted, failed);
      var rows := ToRows(batches[0], now).value;
      UpsertFromComplete(s.table, rest, k + 1, ok, now, abortOnError, s.upserted, s.failedBatches);
      UpsertRowsAppend(t, rows, ToRows(Flatten(rest), now).value);
    }
  }

  /** A loop that was neither cut short nor had a batch rejected accepted its
      first batch, every post of which has a permalink. */
  lemma CompleteTurn(t: Table, batches: seq<seq<RedditPost>>, k: nat, ok: nat -> bool, now: string,
                     abortOnError: bool, upserted: nat, failed: nat)
    requires batches != []
    requires var s := UpsertFrom(t, batches, k, ok, now, abortOnError, upserted, failed);
      !s.aborted && s.failedBatches == failed
    ensures ToRows(batches[0], now).Some? && ok(k) && DistinctIds(ToRows(batches[0], now).value)
    ensures var s := BatchTurn(t, batches[0], k, ok, now, abortOnError, upserted, failed);
      && !s.aborted && s.table == UpsertRows(t, ToRows(batches[0], now).value) && s.failedBatches == failed
      && UpsertFrom(t, batches, k, ok, now, abortOnError, upserted, failed)
         == UpsertFrom(s.table, batches[1..], k + 1, ok, now, abortOnError, s.upserted, s.failedBatches)
  {
    var s := BatchTurn(t, batches[0], k, ok, now, abortOnError, upserted, failed);
    if !s.aborted {
      UpsertFromCountsFailed(s.table, batches[1..], k + 1, ok, now, abortOnError, s.upserted, s.failedBatches);
    }
  }

  /** The upsert of all posts: at most as many rows counted as posts, all of
      them exactly when nothing went wrong, nothing stored overwritten in its
      identity or moderation columns, and, when nothing went wrong, the table
      one upsert of every row would leave. */
  lemma UpsertAllProperties(t: Table, posts: seq<RedditPost>, ok: nat -> bool, now: string, abortOnError: bool)
    ensures var s := UpsertAll(t, posts, ok, now, abortOnError);
      && s.upserted <= |posts|
      && (s.upserted == |posts| <==> (!s.aborted && s.failedBatches == 0))
      && t.Keys <= s.table.Keys
      && s.table.Keys <= t.Keys + PostIds(posts)
      && (forall id :: id in t ==>
            s.table[id].hidden == t[id].hidden && s.table[id].extractedName == t[id].extractedName)
      && (forall id :: id in s.table && id !in t ==> !s.table[id].hidden)
      && (!s.aborted && s.failedBatches == 0 ==>
            ToRows(posts, now).Some? && s.table == UpsertRows(t, ToRows(posts, now).value))
  {
    var bs := Batches(posts, UPSERT_BATCH_SIZE);
    BatchesPartition(posts, UPSERT_BATCH_SIZE);
    UpsertFromCounts(t, bs, 0, ok, now, abortOnError, 0, 0);
    UpsertFromKeys(t, bs, 0, ok, now, abortOnError, 0, 0);
    UpsertFromKeepsModeration(t, bs, 0, ok, now, abortOnError, 0, 0);
    var s := UpsertAll(t, posts, ok, now, abortOnError);
    if !s.aborted && s.failedBatches == 0 {
      UpsertFromComplete(t, bs, 0, ok, now, abortOnError, 0, 0);
    }
  }

  /** One turn of the upsert loop: the first batch is `posts.slice(i, i + 50)`,
      and the remaining batches are those of what follows it. */
  lemma BatchAt(posts: seq<RedditPost>, i: nat)
    requires i < |posts|
    ensures var end := Min(i + UPSERT_BATCH_SIZE, |posts|);
      Batches(posts[i..], UPSERT_BATCH_SIZE) == [posts[i..end]] + Batches(posts[end..], UPSERT_BATCH_SIZE)
  {
    var end := Min(i + UPSERT_BATCH_SIZE, |posts|);
    BatchesHead(posts[i..], UPSERT_BATCH_SIZE);
    assert posts[i..][..end - i] == posts[i..end];
    assert posts[i..][end - i..] == posts[end..];
  }

  /** One turn of the upsert loop: the batch's rows are upserted when the
      database accepts batch `k`; the turn ends the loop on a missing
      permalink, or on a rejected batch where that aborts. Whatever the
      outcome, the rest of the loop from here is what it was before. */
  method UpsertBatch(store: Store, batch: seq<RedditPost>, k: nat, ok: nat -> bool, now: string,
                     abortOnError: bool, upserted: nat, failed: nat)
      returns (upserted': nat, failed': nat, stop: bool)
    modifies store
    ensures UpsertSummary(store.rows, upserted', failed', stop)
      == BatchTurn(old(store.rows), batch, k, ok, now, abortOnError, upserted, failed)
  {
    upserted', failed', stop := upserted, failed, false;
    var rows := ToRows(batch, now);
    if rows.None? {
      stop := true;
      return;
    }
    if ok(k) && DistinctIds(rows.value) {
      store.Upsert(rows.value);
      upserted' := upserted + |rows.value|;
    } else {
      failed' := failed + 1;
      stop := abortOnError;
    }
  }

  /** The upsert loop: `for (i = 0; i < posts.length; i += 50)`, one upsert per
      slice; a rejected batch is skipped (counted in `failedBatches`) or ends
      the loop, as `abortOnError` says; a missing permalink ends it. */
  method UpsertPhase(store: Store, posts: seq<RedditPost>, ok: nat -> bool, now: string, abortOnError: bool)
      returns (upserted: nat, failedBatches: nat, aborted: bool)
    modifies store
    ensures UpsertSummary(store.rows, upserted, failedBatches, aborted)
      == UpsertAll(old(store.rows), posts, ok, now, abortOnError)
  {
    upserted, failedBatches, aborted := 0, 0, false;
    ghost var target := UpsertAll(store.rows, posts, ok, now, abortOnError);
    var i := 0;
    var k := 0;
    ghost var todo := Batches(posts, UPSERT_BATCH_SIZE);
    assert posts[0..] == posts;
    while i < |posts|
      invariant 0 <= i
      invariant i < |posts| ==> todo == Batches(posts[i..], UPSERT_BATCH_SIZE)
      invariant i >= |posts| ==> todo == []
      invariant target == UpsertFrom(store.rows, todo, k, ok, now, abortOnError, upserted, failedBatches)
      decreases |posts| - i
    {
      var end := Min(i + UPSERT_BATCH_SIZE, |posts|);
      BatchAt(posts, i);
      var stop;
      upserted, failedBatches, stop := UpsertBatch(store, posts[i..end], k, ok, now, abortOnError, upserted, failedBatches);
      if stop {
        aborted := true;
        return;
      }
      i := i + UPSERT_BATCH_SIZE;
      k := k + 1;
      todo := todo[1..];
      assert i >= |posts| ==> end == |posts|;
    }
  }
}
