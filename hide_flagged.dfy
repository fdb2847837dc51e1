/** `scripts/hide-flagged.ts`: gather the visible posts whose title or
    extracted name matches a sensitive pattern, then walk them highest score
    first and hide each one that cannot be checked by eye (no image, no
    usable name, or an image that is gone); the rest are listed for manual
    review. With `--dry-run` nothing is written but every counter moves as in
    a live run. */
module HideFlagged {
  import opened Common
  import opened Text
  import opened PostStore
  import opened Moderation

  /** The `limit=100` of each pattern query. */
  const QUERY_LIMIT: nat := 100

  /** A pattern query (`title=ilike.%p%` or `extracted_name=ilike.%p%`, not
      hidden, highest score first): its rows, or None when it fails. */
  type FlaggedQuery = string -> Option<seq<FlaggedPost>>

  // ---------------------------------------------------------------------------
  // fetchFlaggedPosts

  /** Every hit in the order the script asks for them: for each pattern its
      title hits, then its name hits; None when any query fails. */
  function HitsOf(patterns: seq<string>, byTitle: FlaggedQuery, byName: FlaggedQuery): Option<seq<FlaggedPost>>
    decreases |patterns|
  {
    if patterns == [] then Some([])
    else
      var t := byTitle(patterns[0]);
      var n := byName(patterns[0]);
      var rest := HitsOf(patterns[1..], byTitle, byName);
      if t.None? || n.None? || rest.None? then None
      else Some(Take(t.value, QUERY_LIMIT) + Take(n.value, QUERY_LIMIT) + rest.value)
  }

  /** The gathering loop from pattern `patterns[0]` on, with `all` gathered so far. */
  function GatherFrom(all: seq<FlaggedPost>, patterns: seq<string>, byTitle: FlaggedQuery, byName: FlaggedQuery): Option<seq<FlaggedPost>>
    decreases |patterns|
  {
    if patterns == [] then Some(all)
    else
      var t := byTitle(patterns[0]);
      if t.None? then None
      else
        var n := byName(patterns[0]);
        if n.None? then None
        else GatherFrom(AddUnseen(AddUnseen(all, Take(t.value, QUERY_LIMIT)), Take(n.value, QUERY_LIMIT)), patterns[1..], byTitle, byName)
  }

  /** The loop fails exactly when a query fails, and otherwise appends the
      unseen hits of all queries, in query order. */
  lemma {:induction false} GatherFromHits(all: seq<FlaggedPost>, patterns: seq<string>, byTitle: FlaggedQuery, byName: FlaggedQuery)
    ensures GatherFrom(all, patterns, byTitle, byName).None? <==> HitsOf(patterns, byTitle, byName).None?
    ensures HitsOf(patterns, byTitle, byName).Some? ==>
      GatherFrom(all, patterns, byTitle, byName) == Some(AddUnseen(all, HitsOf(patterns, byTitle, byName).value))
    decreases |patterns|
  {
    if patterns != [] {
      var t := byTitle(patterns[0]);
      var n := byName(patterns[0]);
      if t.Some? && n.Some? {
        var a := Take(t.value, QUERY_LIMIT);
        var b := Take(n.value, QUERY_LIMIT);
        var all' := AddUnseen(AddUnseen(all, a), b);
        GatherFromHits(all', patterns[1..], byTitle, byName);
        var rest := HitsOf(patterns[1..], byTitle, byName);
        if rest.Some? {
          AddUnseenAppend(all, a, b);
          AddUnseenAppend(all, a + b, rest.value);
        }
      }
    }
  }

  /** `fetchFlaggedPosts`: the gathered posts sorted by score, highest first. */
  function FetchFlagged(byTitle: FlaggedQuery, byName: FlaggedQuery): Option<seq<FlaggedPost>> {
    FetchFlaggedFor(SENSITIVE_PATTERNS, byTitle, byName)
  }

  /** The same over any list of patterns. */
  function FetchFlaggedFor(patterns: seq<string>, byTitle: FlaggedQuery, byName: FlaggedQuery): Option<seq<FlaggedPost>> {
    match GatherFrom([], patterns, byTitle, byName)
    case None => None
    case Some(all) => Some(SortByScore(all))
  }

  /** The flagged list: each id once, carrying its first hit in query order,
      every id that any query returned, highest score first, and posts of
      equal score in the order they were gathered. */
  lemma FetchFlaggedProperties(patterns: seq<string>, byTitle: FlaggedQuery, byName: FlaggedQuery)
    ensures FetchFlaggedFor(patterns, byTitle, byName).None? <==> HitsOf(patterns, byTitle, byName).None?
    ensures FetchFlaggedFor(patterns, byTitle, byName).Some? ==>
      var r := FetchFlaggedFor(patterns, byTitle, byName).value;
      var hits := HitsOf(patterns, byTitle, byName).value;
      && UniqueIds(r)
      && SortedByScore(r)
      && IdsOf(r) == IdsOf(hits)
      && (forall x :: x in r ==> x.id in IdsOf(hits) && x == FirstWith(hits, x.id))
      && (forall v :: WithScore(r, v) == WithScore(AddUnseen([], hits), v))
  {
    GatherFromHits([], patterns, byTitle, byName);
    var h := HitsOf(patterns, byTitle, byName);
    if h.Some? {
      var all := AddUnseen([], h.value);
      AddUnseenSpec([], h.value);
      assert IdsOf([]) == {};
      SortByScoreSorted(all);
      SortByScoreKeepsIds(all);
      var r := SortByScore(all);
      forall x | x in r ensures x in all {
        assert x in multiset(r);
      }
      forall v ensures WithScore(r, v) == WithScore(all, v) {
        SortByScoreStable(all, v);
      }
    }
  }

  /** The gathering loops: for each pattern, the title hits and then the name
      hits, each appended when its id has not been seen; then the sort. */
  method FetchFlaggedPosts(byTitle: FlaggedQuery, byName: FlaggedQuery) returns (r: Option<seq<FlaggedPost>>)
    ensures r == FetchFlagged(byTitle, byName)
  {
    r := FetchFlaggedPostsFor(SENSITIVE_PATTERNS, byTitle, byName);
  }

  /** The loops of `fetchFlaggedPosts` over any list of patterns. */
  method FetchFlaggedPostsFor(patterns: seq<string>, byTitle: FlaggedQuery, byName: FlaggedQuery) returns (r: Option<seq<FlaggedPost>>)
    ensures r == FetchFlaggedFor(patterns, byTitle, byName)
  {
    var all: seq<FlaggedPost> := [];
    var seen: set<string> := {};
    assert IdsOf(all) == {};
    var i := 0;
    while i < |patterns|
      invariant i <= |patterns|
      invariant seen == IdsOf(all)
      invariant GatherFrom([], patterns, byTitle, byName) == GatherFrom(all, patterns[i..], byTitle, byName)
    {
      var pattern := patterns[i];
      assert patterns[i..][1..] == patterns[i + 1..];
      var titleHits := byTitle(pattern);
      if titleHits.None? {
        return None;
      }
      seen, all := Absorb(seen, all, Take(titleHits.value, QUERY_LIMIT));
      var nameHits := byName(pattern);
      if nameHits.None? {
        return None;
      }
      seen, all := Absorb(seen, all, Take(nameHits.value, QUERY_LIMIT));
      i := i + 1;
    }
    r := Some(SortByScore(all));
  }

  // ---------------------------------------------------------------------------
  // The sweep

  /** Why a post is hidden, or that it is left for a person to look at. */
  datatype Decision = HideNoImage | HideNoName | HideImageGone | ManualReview

  /** The ladder of `main`: no image, then no usable name, then an image that
      a HEAD request cannot reach; otherwise manual review. */
  function Decide(post: FlaggedPost, accessible: string -> bool): (d: Decision)
    ensures d == HideImageGone || d == ManualReview ==> Truthy(post.imageUrl) && !NameBlank(post.extractedName)
  {
    if !Truthy(post.imageUrl) then HideNoImage
    else if NameBlank(post.extractedName) then HideNoName
    else if !accessible(post.imageUrl.value) then HideImageGone
    else ManualReview
  }

  /** A post is hidden exactly when it lacks an image, or a usable name, or its
      image is unreachable; it is checked over the network exactly when it has both. */
  lemma DecideLadder(post: FlaggedPost, accessible: string -> bool)
    ensures Decide(post, accessible) != ManualReview <==>
      (!Truthy(post.imageUrl) || NameBlank(post.extractedName) || !accessible(post.imageUrl.value))
    ensures Decide(post, accessible) == HideNoName <==> Truthy(post.imageUrl) && NameBlank(post.extractedName)
    ensures (Decide(post, accessible) == HideImageGone || Decide(post, accessible) == ManualReview) <==> NeedsCheck(post)
  {
  }

  /** For a post with a flagged title the sweep hides what the daily sync's
      auto-hide rule hides, and besides that only posts whose image is gone. */
  lemma DecideAgreesWithAutoHide(post: FlaggedPost, accessible: string -> bool)
    requires MatchesSensitive(post.title)
    ensures ShouldAutoHide(post.title, post.imageUrl, post.extractedName) ==> Decide(post, accessible) != ManualReview
    ensures Decide(post, accessible) != ManualReview && !ShouldAutoHide(post.title, post.imageUrl, post.extractedName)
            ==> Decide(post, accessible) == HideImageGone
  {
  }

  /** The post has an image and a usable name, so its image is checked. */
  predicate NeedsCheck(post: FlaggedPost) {
    Truthy(post.imageUrl) && !NameBlank(post.extractedName)
  }

  /** The HEAD check of an image URL (false when the request throws) and
      whether the hide PATCH of an id succeeds. */
  datatype SweepEnv = SweepEnv(accessible: string -> bool, hideOk: string -> bool)

  /** The counters of `main` and the posts listed for review; `aborted` when
      a hide PATCH failed, which throws out of `main`. */
  datatype SweepState = SweepState(table: Table, hidden: nat, manual: nat, checks: nat, review: seq<FlaggedPost>, aborted: bool)

  /** One turn of the loop of `main`: the counters after `post`, with the
      hide written unless this is a dry run; `aborted` when that write fails. */
  function SweepStep(s: SweepState, post: FlaggedPost, dryRun: bool, env: SweepEnv): SweepState {
    var checks := if NeedsCheck(post) then s.checks + 1 else s.checks;
    if Decide(post, env.accessible) == ManualReview then
      s.(manual := s.manual + 1, checks := checks, review := s.review + [post])
    else if dryRun then s.(hidden := s.hidden + 1, checks := checks)
    else if !env.hideOk(post.id) then s.(checks := checks, aborted := true)
    else s.(table := HideIds(s.table, {post.id}), hidden := s.hidden + 1, checks := checks)
  }

  /** The loop of `main` from `posts[0]` on. */
  function SweepFrom(s: SweepState, posts: seq<FlaggedPost>, dryRun: bool, env: SweepEnv): SweepState
    decreases |posts|
  {
    if posts == [] then s
    else
      var s' := SweepStep(s, posts[0], dryRun, env);
      if s'.aborted then s' else SweepFrom(s', posts[1..], dryRun, env)
  }

  /** The posts the ladder sends to manual review, in order. */
  function ReviewPosts(posts: seq<FlaggedPost>, accessible: string -> bool): seq<FlaggedPost> {
    if posts == [] then []
    else (if Decide(posts[0], accessible) == ManualReview then [posts[0]] else []) + ReviewPosts(posts[1..], accessible)
  }

  /** The number of posts with an image and a usable name. */
  function CountChecks(posts: seq<FlaggedPost>): (n: nat)
    ensures n <= |posts|
  {
    if posts == [] then 0 else (if NeedsCheck(posts[0]) then 1 else 0) + CountChecks(posts[1..])
  }

  /** The ids the ladder decides to hide. */
  function ToHide(posts: seq<FlaggedPost>, accessible: string -> bool): set<string> {
    set p | p in posts && Decide(p, accessible) != ManualReview :: p.id
  }

  /** The ids a run actually hides: none in a dry run; otherwise those decided
      to be hidden up to the first PATCH that fails. */
  function Written(posts: seq<FlaggedPost>, dryRun: bool, env: SweepEnv): set<string>
    decreases |posts|
  {
    if posts == [] || dryRun then {}
    else if Decide(posts[0], env.accessible) == ManualReview then Written(posts[1..], dryRun, env)
    else if !env.hideOk(posts[0].id) then {}
    else {posts[0].id} + Written(posts[1..], dryRun, env)
  }

  /** One turn counts the post once, as hidden or as needing review, unless its hide fails. */
  lemma StepCounts(s: SweepState, post: FlaggedPost, dryRun: bool, env: SweepEnv)
    requires !s.aborted
    ensures var r := SweepStep(s, post, dryRun, env);
      && r.checks == s.checks + (if NeedsCheck(post) then 1 else 0)
      && (r.aborted <==> !dryRun && Decide(post, env.accessible) != ManualReview && !env.hideOk(post.id))
      && (r.aborted ==> r.hidden + r.manual == s.hidden + s.manual)
      && (!r.aborted ==> r.hidden + r.manual == s.hidden + s.manual + 1)
      && (!r.aborted ==> r.review == s.review + (if Decide(post, env.accessible) == ManualReview then [post] else []))
  {
  }

  /** When the loop runs to its end every post is counted once, as hidden or
      as needing review; the image checks are the posts with an image and a
      name; the review list is what the ladder sends to review. */
  lemma {:induction false} SweepCounts(s: SweepState, posts: seq<FlaggedPost>, dryRun: bool, env: SweepEnv)
    requires !s.aborted
    ensures var r := SweepFrom(s, posts, dryRun, env);
      !r.aborted ==>
        && r.hidden + r.manual == s.hidden + s.manual + |posts|
        && r.checks == s.checks + CountChecks(posts)
        && r.review == s.review + ReviewPosts(posts, env.accessible)
    ensures var r := SweepFrom(s, posts, dryRun, env);
      r.hidden + r.manual <= s.hidden + s.manual + |posts| && s.checks <= r.checks
    decreases |posts|
  {
    if posts != [] {
      var s' := SweepStep(s, posts[0], dryRun, env);
      StepCounts(s, posts[0], dryRun, env);
      if !s'.aborted {
        SweepCounts(s', posts[1..], dryRun, env);
      }
    }
  }

  /** The only write is `hidden: true` on the ids the run hides; a dry run
      writes nothing and never fails; the hidden ids are among those the
      ladder picks, and all of them when the run is not cut short. */
  lemma {:induction false} SweepTable(s: SweepState, posts: seq<FlaggedPost>, dryRun: bool, env: SweepEnv)
    requires !s.aborted
    ensures SweepFrom(s, posts, dryRun, env).table == HideIds(s.table, Written(posts, dryRun, env))
    ensures Written(posts, dryRun, env) <= ToHide(posts, env.accessible)
    ensures dryRun ==> Written(posts, dryRun, env) == {} && !SweepFrom(s, posts, dryRun, env).aborted
    ensures !dryRun && !SweepFrom(s, posts, dryRun, env).aborted ==>
      Written(posts, dryRun, env) == ToHide(posts, env.accessible)
    decreases |posts|
  {
    if posts == [] {
      assert HideIds(s.table, {}) == s.table;
    } else {
      var p := posts[0];
      var rest := posts[1..];
      assert ToHide(posts, env.accessible) ==
        (if Decide(p, env.accessible) != ManualReview then {p.id} else {}) + ToHide(rest, env.accessible) by {
        assert forall x :: x in posts <==> x == p || x in rest;
      }
      var s' := SweepStep(s, p, dryRun, env);
      if s'.aborted {
        assert HideIds(s.table, {}) == s.table;
      } else {
        SweepTable(s', rest, dryRun, env);
        if !dryRun && Decide(p, env.accessible) != ManualReview {
          HideIdsUnion(s.table, {p.id}, Written(rest, dryRun, env));
        }
      }
    }
  }

  /** A dry run moves every counter and lists every review post exactly as a
      live run that is not cut short does, whatever tables the two start from. */
  lemma {:induction false} DryRunMatches(s: SweepState, t: Table, posts: seq<FlaggedPost>, env: SweepEnv)
    requires !s.aborted
    ensures var dry := SweepFrom(s, posts, true, env);
      var live := SweepFrom(s.(table := t), posts, false, env);
      !live.aborted ==>
        dry.hidden == live.hidden && dry.manual == live.manual && dry.checks == live.checks && dry.review == live.review
    decreases |posts|
  {
    if posts != [] {
      var p := posts[0];
      var d := SweepStep(s, p, true, env);
      var l := SweepStep(s.(table := t), p, false, env);
      StepDryLive(s, t, p, env);
      if !l.aborted {
        DryRunMatches(d, l.table, posts[1..], env);
      }
    }
  }

  /** One turn of a dry run and of a live run that does not fail leave the
      same state but for the table. */
  lemma StepDryLive(s: SweepState, t: Table, post: FlaggedPost, env: SweepEnv)
    requires !s.aborted
    ensures var d := SweepStep(s, post, true, env);
      var l := SweepStep(s.(table := t), post, false, env);
      !d.aborted && (!l.aborted ==> l == d.(table := l.table))
  {
  }

  /** The hide of one post: `hidden: true` written unless this is a dry
      run; false when that write fails. */
  method HidePost(store: Store, id: string, dryRun: bool, env: SweepEnv) returns (ok: bool)
    modifies store
    ensures ok == (dryRun || env.hideOk(id))
    ensures store.rows == if dryRun || !ok then old(store.rows) else HideIds(old(store.rows), {id})
  {
    if dryRun {
      return true;
    }
    if !env.hideOk(id) {
      return false;
    }
    store.Hide({id});
    ok := true;
  }

  /** One turn of the loop of `main`: the ladder's tests in order, each
      leaving the turn with `continue` once the post is hidden. */
  method Visit(store: Store, post: FlaggedPost, dryRun: bool, env: SweepEnv,
               hidden: nat, manual: nat, checks: nat, review: seq<FlaggedPost>)
      returns (hidden': nat, manual': nat, checks': nat, review': seq<FlaggedPost>, aborted: bool)
    modifies store
    ensures SweepState(store.rows, hidden', manual', checks', review', aborted)
      == SweepStep(SweepState(old(store.rows), hidden, manual, checks, review, false), post, dryRun, env)
  {
    hidden', manual', checks', review', aborted := hidden, manual, checks, review, false;
    if !Truthy(post.imageUrl) || NameBlank(post.extractedName) {
      var ok := HidePost(store, post.id, dryRun, env);
      if !ok {
        aborted := true;
        return;
      }
      hidden' := hidden + 1;
      return;
    }
    checks' := checks + 1;
    var accessible := env.accessible(post.imageUrl.value);
    if !accessible {
      var ok := HidePost(store, post.id, dryRun, env);
      if !ok {
        aborted := true;
        return;
      }
      hidden' := hidden + 1;
      return;
    }
    manual' := manual + 1;
    review' := review + [post];
  }

  /** The loop of `main` over the flagged posts. */
  method Sweep(store: Store, posts: seq<FlaggedPost>, dryRun: bool, env: SweepEnv)
      returns (hidden: nat, manual: nat, checks: nat, review: seq<FlaggedPost>, aborted: bool)
    modifies store
    ensures SweepState(store.rows, hidden, manual, checks, review, aborted)
      == SweepFrom(SweepState(old(store.rows), 0, 0, 0, [], false), posts, dryRun, env)
  {
    ghost var target := SweepFrom(SweepState(store.rows, 0, 0, 0, [], false), posts, dryRun, env);
    hidden, manual, checks, review, aborted := 0, 0, 0, [], false;
    var i := 0;
    while i < |posts|
      invariant i <= |posts|
      invariant target == SweepFrom(SweepState(store.rows, hidden, manual, checks, review, false), posts[i..], dryRun, env)
    {
      assert posts[i..][1..] == posts[i + 1..];
      hidden, manual, checks, review, aborted := Visit(store, posts[i], dryRun, env, hidden, manual, checks, review);
      if aborted {
        return;
      }
      i := i + 1;
    }
  }

  // ---------------------------------------------------------------------------
  // main

  /** How `main` ends: no key set (exit 1), a failed query, nothing flagged,
      the summary of a full sweep, or a failed hide. */
  datatype HideOutcome =
    | MissingKey
    | QueryFailed
    | NothingFlagged
    | Swept(hidden: nat, manual: nat, checks: nat, review: seq<FlaggedPost>, total: nat)
    | HideFailed

  datatype HideRun = HideRun(table: Table, outcome: HideOutcome)

  /** `main`, given whether a service or anon key is set. */
  function RunHide(t: Table, hasKey: bool, byTitle: FlaggedQuery, byName: FlaggedQuery, dryRun: bool, env: SweepEnv): HideRun {
    if !hasKey then HideRun(t, MissingKey)
    else
      match FetchFlagged(byTitle, byName)
      case None => HideRun(t, QueryFailed)
      case Some(posts) =>
        if posts == [] then HideRun(t, NothingFlagged)
        else
          var r := SweepFrom(SweepState(t, 0, 0, 0, [], false), posts, dryRun, env);
          if r.aborted then HideRun(r.table, HideFailed)
          else HideRun(r.table, Swept(r.hidden, r.manual, r.checks, r.review, |posts|))
  }

  /** What a run promises: no write unless posts were flagged; only
      `hidden: true` is ever written, and only to ids the ladder picks; a full
      sweep counts every flagged post once, checks exactly those with an image
      and a name, and (dry run or not) reports the same numbers. */
  lemma RunHideProperties(t: Table, hasKey: bool, byTitle: FlaggedQuery, byName: FlaggedQuery, dryRun: bool, env: SweepEnv)
    ensures var r := RunHide(t, hasKey, byTitle, byName, dryRun, env);
      (r.outcome.MissingKey? || r.outcome.QueryFailed? || r.outcome.NothingFlagged?) ==> r.table == t
    ensures var r := RunHide(t, hasKey, byTitle, byName, dryRun, env);
      r.table.Keys == t.Keys && forall k :: k in t && t[k].hidden ==> r.table[k].hidden
    ensures var r := RunHide(t, hasKey, byTitle, byName, dryRun, env);
      forall k :: k in t ==> r.table[k].(hidden := t[k].hidden) == t[k]
    ensures var r := RunHide(t, hasKey, byTitle, byName, dryRun, env);
      r.outcome.Swept? ==>
        && r.outcome.hidden + r.outcome.manual == r.outcome.total
        && r.outcome.checks == CountChecks(FetchFlagged(byTitle, byName).value)
        && r.outcome.review == ReviewPosts(FetchFlagged(byTitle, byName).value, env.accessible)
    ensures dryRun ==> RunHide(t, hasKey, byTitle, byName, dryRun, env).table == t
    ensures dryRun ==> !RunHide(t, hasKey, byTitle, byName, dryRun, env).outcome.HideFailed?
    ensures var live := RunHide(t, hasKey, byTitle, byName, false, env);
      live.outcome.Swept? ==> RunHide(t, hasKey, byTitle, byName, true, env).outcome == live.outcome
  {
    var f := FetchFlagged(byTitle, byName);
    if hasKey && f.Some? && f.value != [] {
      var posts := f.value;
      SweepFacts(t, posts, dryRun, env);
      SweepFacts(t, posts, true, env);
      DryRunMatches(SweepState(t, 0, 0, 0, [], false), t, posts, env);
    }
  }

  /** A sweep from zeroed counters over `posts`: the table keeps its ids and
      gains nothing but `hidden: true`; a full sweep counts each post once,
      checks those with an image and a name and lists the review posts; a dry
      run writes nothing and is never cut short. */
  lemma SweepFacts(t: Table, posts: seq<FlaggedPost>, dryRun: bool, env: SweepEnv)
    ensures var r := SweepFrom(SweepState(t, 0, 0, 0, [], false), posts, dryRun, env);
      && r.table.Keys == t.Keys
      && (forall k :: k in t && t[k].hidden ==> r.table[k].hidden)
      && (forall k :: k in t ==> r.table[k].(hidden := t[k].hidden) == t[k])
      && (!r.aborted ==>
            && r.hidden + r.manual == |posts|
            && r.checks == CountChecks(posts)
            && r.review == ReviewPosts(posts, env.accessible))
      && (dryRun ==> r.table == t && !r.aborted)
  {
    var s0 := SweepState(t, 0, 0, 0, [], false);
    SweepCounts(s0, posts, dryRun, env);
    SweepTable(s0, posts, dryRun, env);
    HideIdsSpec(t, Written(posts, dryRun, env));
    assert HideIds(t, {}) == t;
  }

  /** `main`. */
  method Run(store: Store, hasKey: bool, byTitle: FlaggedQuery, byName: FlaggedQuery, dryRun: bool, env: SweepEnv)
      returns (outcome: HideOutcome)
    modifies store
    ensures HideRun(store.rows, outcome) == RunHide(old(store.rows), hasKey, byTitle, byName, dryRun, env)
  {
    if !hasKey {
      return MissingKey;
    }
    var posts := FetchFlaggedPosts(byTitle, byName);
    if posts.None? {
      return QueryFailed;
    }
    if posts.value == [] {
      return NothingFlagged;
    }
    var hidden, manual, checks, review, aborted := Sweep(store, posts.value, dryRun, env);
    if aborted {
      return HideFailed;
    }
    outcome := Swept(hidden, manual, checks, review, |posts.value|);
  }
}
