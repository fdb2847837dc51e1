/** `scripts/review-flagged.ts`: gather the posts whose title or extracted
    name matches a sensitive pattern (all title queries first, then all name
    queries), highest score first, and walk them one key press at a time:
    `k` keeps, `d` deletes, `s` or any other key skips, `q` or Ctrl-C stops. */
module ReviewFlagged {
  import opened Common
  import opened Text
  import opened PostStore
  import opened Moderation

  /** The `limit=50` of each pattern query. */
  const QUERY_LIMIT: nat := 50

  /** A pattern query (`title=ilike.%p%` or `extracted_name=ilike.%p%`,
      highest score first): its rows, or None when it fails. */
  type FlaggedQuery = string -> Option<seq<FlaggedPost>>

  // ---------------------------------------------------------------------------
  // fetchFlaggedPosts

  /** The hits of one query per pattern, in order; None when any query fails. */
  function HitsFor(patterns: seq<string>, query: FlaggedQuery): Option<seq<FlaggedPost>>
    decreases |patterns|
  {
    if patterns == [] then Some([])
    else
      var q := query(patterns[0]);
      var rest := HitsFor(patterns[1..], query);
      if q.None? || rest.None? then None else Some(Take(q.value, QUERY_LIMIT) + rest.value)
  }

  /** One of the two gathering loops, from `patterns[0]` on. */
  function GatherFrom(all: seq<FlaggedPost>, patterns: seq<string>, query: FlaggedQuery): Option<seq<FlaggedPost>>
    decreases |patterns|
  {
    if patterns == [] then Some(all)
    else
      var q := query(patterns[0]);
      if q.None? then None else GatherFrom(AddUnseen(all, Take(q.value, QUERY_LIMIT)), patterns[1..], query)
  }

  /** A loop fails exactly when one of its queries fails, and otherwise
      appends the unseen hits of its queries, in order. */
  lemma {:induction false} GatherFromHits(all: seq<FlaggedPost>, patterns: seq<string>, query: FlaggedQuery)
    ensures GatherFrom(all, patterns, query).None? <==> HitsFor(patterns, query).None?
    ensures HitsFor(patterns, query).Some? ==>
      GatherFrom(all, patterns, query) == Some(AddUnseen(all, HitsFor(patterns, query).value))
    decreases |patterns|
  {
    if patterns != [] {
      var q := query(patterns[0]);
      if q.Some? {
        var a := Take(q.value, QUERY_LIMIT);
        GatherFromHits(AddUnseen(all, a), patterns[1..], query);
        var rest := HitsFor(patterns[1..], query);
        if rest.Some? {
          AddUnseenAppend(all, a, rest.value);
        }
      }
    }
  }

  /** `fetchFlaggedPosts`: the title loop, then the name loop, then the sort. */
  function FetchFlagged(byTitle: FlaggedQuery, byName: FlaggedQuery): Option<seq<FlaggedPost>> {
    FetchFlaggedFor(SENSITIVE_PATTERNS, byTitle, byName)
  }

  /** The same over any list of patterns. */
  function FetchFlaggedFor(patterns: seq<string>, byTitle: FlaggedQuery, byName: FlaggedQuery): Option<seq<FlaggedPost>> {
    match GatherFrom([], patterns, byTitle)
    case None => None
    case Some(titled) =>
      match GatherFrom(titled, patterns, byName)
      case None => None
      case Some(all) => Some(SortByScore(all))
  }

  /** The flagged list: each id once, highest score first; an id that some
      title query returned carries its first title hit, whatever the name
      queries returned; any other id its first name hit. */
  lemma FetchFlaggedProperties(patterns: seq<string>, byTitle: FlaggedQuery, byName: FlaggedQuery)
    ensures FetchFlaggedFor(patterns, byTitle, byName).None? <==>
      HitsFor(patterns, byTitle).None? || HitsFor(patterns, byName).None?
    ensures FetchFlaggedFor(patterns, byTitle, byName).Some? ==>
      var r := FetchFlaggedFor(patterns, byTitle, byName).value;
      var titles := HitsFor(patterns, byTitle).value;
      var names := HitsFor(patterns, byName).value;
      && UniqueIds(r)
      && SortedByScore(r)
      && IdsOf(r) == IdsOf(titles) + IdsOf(names)
      && (forall x :: x in r && x.id in IdsOf(titles) ==> x == FirstWith(titles, x.id))
      && (forall x :: x in r && x.id !in IdsOf(titles) ==> x.id in IdsOf(names) && x == FirstWith(names, x.id))
  {
    var ht := HitsFor(patterns, byTitle);
    var hn := HitsFor(patterns, byName);
    GatherFromHits([], patterns, byTitle);
    if ht.Some? {
      var titled := AddUnseen([], ht.value);
      GatherFromHits(titled, patterns, byName);
      if hn.Some? {
        var all := AddUnseen(titled, hn.value);
        assert IdsOf([]) == {};
        AddUnseenSpec([], ht.value);
        AddUnseenSpec(titled, hn.value);
        SortByScoreSorted(all);
        SortByScoreKeepsIds(all);
        var r := SortByScore(all);
        forall x | x in r ensures x in all {
          assert x in multiset(r);
        }
        AddUnseenKeepsEarlier(titled, hn.value);
      }
    }
  }

  /** One gathering loop: every pattern's hits, each appended when its id
      has not been seen; `ok` false when a query fails. */
  method Gather(patterns: seq<string>, seen0: set<string>, all0: seq<FlaggedPost>, query: FlaggedQuery)
      returns (ok: bool, seen: set<string>, all: seq<FlaggedPost>)
    requires seen0 == IdsOf(all0)
    ensures ok <==> GatherFrom(all0, patterns, query).Some?
    ensures ok ==> all == GatherFrom(all0, patterns, query).value && seen == IdsOf(all)
  {
    seen, all := seen0, all0;
    var i := 0;
    while i < |patterns|
      invariant i <= |patterns|
      invariant seen == IdsOf(all)
      invariant GatherFrom(all0, patterns, query) == GatherFrom(all, patterns[i..], query)
    {
      assert patterns[i..][1..] == patterns[i + 1..];
      var hits := query(patterns[i]);
      if hits.None? {
        return false, seen, all;
      }
      seen, all := Absorb(seen, all, Take(hits.value, QUERY_LIMIT));
      i := i + 1;
    }
    assert patterns[i..] == [];
    ok := true;
  }

  /** The title loop, the name loop and the sort. */
  method FetchFlaggedPosts(byTitle: FlaggedQuery, byName: FlaggedQuery) returns (r: Option<seq<FlaggedPost>>)
    ensures r == FetchFlagged(byTitle, byName)
  {
    assert IdsOf([]) == {};
    var ok, seen, all := Gather(SENSITIVE_PATTERNS, {}, [], byTitle);
    if !ok {
      return None;
    }
    ok, seen, all := Gather(SENSITIVE_PATTERNS, seen, all, byName);
    if !ok {
      return None;
    }
    r := Some(SortByScore(all));
  }

  // ---------------------------------------------------------------------------
  // The key loop

  /** What a key press asks for. */
  datatype Action = Keep | Delete | Skip | Quit | Unrecognised

  const CTRL_C: char := '\U{0003}'

  /** The `switch` on the lower-cased key as read from the terminal. */
  function ActionOf(raw: string): (a: Action)
    ensures a == Quit <==> ToLower(raw) == "q" || ToLower(raw) == [CTRL_C]
  {
    var key := ToLower(raw);
    if key == "k" then Keep
    else if key == "d" then Delete
    else if key == "s" then Skip
    else if key == "q" || key == [CTRL_C] then Quit
    else Unrecognised
  }

  /** Keys are read without regard to case; Ctrl-C quits like `q`; a key
      longer than one character is not recognised. */
  lemma ActionExamples()
    ensures ActionOf("K") == Keep && ActionOf("d") == Delete && ActionOf("S") == Skip
    ensures ActionOf("Q") == Quit && ActionOf([CTRL_C]) == Quit
    ensures ActionOf("kd") == Unrecognised && ActionOf("") == Unrecognised
  {
    assert ToLower("K") == "k" by { assert LowerChar('K') == 'k'; }
    assert ToLower("S") == "s" by { assert LowerChar('S') == 's'; }
    assert ToLower("Q") == "q" by { assert LowerChar('Q') == 'q'; }
    assert ToLower("d") == "d";
    assert ToLower([CTRL_C]) == [CTRL_C];
    assert |ToLower("kd")| == 2;
  }

  /** The key pressed at each post (`keys(i)` at `posts[i]`) and whether the
      DELETE of an id succeeds. */
  datatype ReviewEnv = ReviewEnv(keys: nat -> string, deleteOk: string -> bool)

  datatype ReviewState = ReviewState(table: Table, kept: nat, deleted: nat, skipped: nat)

  /** What one key does to the counters and the table (a quit changes nothing). */
  function ReviewStep(s: ReviewState, post: FlaggedPost, action: Action, env: ReviewEnv): ReviewState {
    match action
    case Keep => s.(kept := s.kept + 1)
    case Delete =>
      if env.deleteOk(post.id) then s.(table := s.table - {post.id}, deleted := s.deleted + 1) else s
    case Skip => s.(skipped := s.skipped + 1)
    case Quit => s
    case Unrecognised => s.(skipped := s.skipped + 1)
  }

  /** The key loop from `posts[i]` on. */
  function ReviewFrom(s: ReviewState, posts: seq<FlaggedPost>, i: nat, env: ReviewEnv): ReviewState
    requires i <= |posts|
    decreases |posts| - i
  {
    if i == |posts| then s
    else
      var action := ActionOf(env.keys(i));
      if action == Quit then s else ReviewFrom(ReviewStep(s, posts[i], action, env), posts, i + 1, env)
  }

  /** The index the loop stops at: the first quit key, or the end. */
  function Reached(posts: seq<FlaggedPost>, i: nat, keys: nat -> string): (n: nat)
    requires i <= |posts|
    ensures i <= n <= |posts|
    decreases |posts| - i
  {
    if i == |posts| || ActionOf(keys(i)) == Quit then i else Reached(posts, i + 1, keys)
  }

  /** No quit key among the keys of `posts[i..]`. */
  predicate NoQuit(posts: seq<FlaggedPost>, i: nat, keys: nat -> string) {
    forall j :: i <= j < |posts| ==> ActionOf(keys(j)) != Quit
  }

  /** The loop reaches the end exactly when no quit key comes before it. */
  lemma {:induction false} ReachedEnd(posts: seq<FlaggedPost>, i: nat, keys: nat -> string)
    requires i <= |posts|
    ensures Reached(posts, i, keys) == |posts| <==> NoQuit(posts, i, keys)
    decreases |posts| - i
  {
    if i < |posts| && ActionOf(keys(i)) != Quit {
      ReachedEnd(posts, i + 1, keys);
    }
  }

  /** A `d` at `posts[j]` whose delete fails. */
  predicate DeleteFails(posts: seq<FlaggedPost>, j: nat, env: ReviewEnv)
    requires j < |posts|
  {
    ActionOf(env.keys(j)) == Delete && !env.deleteOk(posts[j].id)
  }

  /** The failed deletes among `posts[i..n]`. */
  function FailedDeletes(posts: seq<FlaggedPost>, i: nat, n: nat, env: ReviewEnv): nat
    requires i <= n <= |posts|
    decreases n - i
  {
    if i == n then 0 else (if DeleteFails(posts, i, env) then 1 else 0) + FailedDeletes(posts, i + 1, n, env)
  }

  /** The ids deleted among `posts[i..n]`. */
  function DeletedIds(posts: seq<FlaggedPost>, i: nat, n: nat, env: ReviewEnv): set<string>
    requires i <= n <= |posts|
    decreases n - i
  {
    if i == n then {}
    else
      var here := if ActionOf(env.keys(i)) == Delete && env.deleteOk(posts[i].id) then {posts[i].id} else {};
      here + DeletedIds(posts, i + 1, n, env)
  }

  lemma {:induction false} FailedDeletesZero(posts: seq<FlaggedPost>, i: nat, n: nat, env: ReviewEnv)
    requires i <= n <= |posts|
    ensures FailedDeletes(posts, i, n, env) == 0 <==> forall j :: i <= j < n ==> !DeleteFails(posts, j, env)
    decreases n - i
  {
    if i < n {
      FailedDeletesZero(posts, i + 1, n, env);
    }
  }

  /** One key other than a quit moves exactly one counter by one, unless it is
      a `d` whose delete fails, and removes the id it deletes. */
  lemma StepTally(s: ReviewState, posts: seq<FlaggedPost>, i: nat, env: ReviewEnv)
    requires i < |posts| && ActionOf(env.keys(i)) != Quit
    ensures var r := ReviewStep(s, posts[i], ActionOf(env.keys(i)), env);
      && r.kept + r.deleted + r.skipped + (if DeleteFails(posts, i, env) then 1 else 0) == s.kept + s.deleted + s.skipped + 1
      && r.table == s.table - (if ActionOf(env.keys(i)) == Delete && env.deleteOk(posts[i].id) then {posts[i].id} else {})
      && s.kept <= r.kept && s.deleted <= r.deleted && s.skipped <= r.skipped
  {
  }

  /** Every post the loop reaches moves exactly one counter, unless its delete
      fails; the loop stops at the first quit key; the only change to the
      table is the removal of the ids deleted. */
  lemma {:induction false} ReviewTally(s: ReviewState, posts: seq<FlaggedPost>, i: nat, env: ReviewEnv)
    requires i <= |posts|
    ensures var r := ReviewFrom(s, posts, i, env);
      var n := Reached(posts, i, env.keys);
      && r.kept + r.deleted + r.skipped + FailedDeletes(posts, i, n, env) == s.kept + s.deleted + s.skipped + (n - i)
      && r.table == s.table - DeletedIds(posts, i, n, env)
      && s.kept <= r.kept && s.deleted <= r.deleted && s.skipped <= r.skipped
    decreases |posts| - i
  {
    if i < |posts| && ActionOf(env.keys(i)) != Quit {
      var s' := ReviewStep(s, posts[i], ActionOf(env.keys(i)), env);
      StepTally(s, posts, i, env);
      ReviewTally(s', posts, i + 1, env);
      var d := if ActionOf(env.keys(i)) == Delete && env.deleteOk(posts[i].id) then {posts[i].id} else {};
      var rest := DeletedIds(posts, i + 1, Reached(posts, i + 1, env.keys), env);
      assert s.table - d - rest == s.table - (d + rest);
    }
  }

  /** The counters never exceed the number of posts, and equal it exactly
      when no quit key was pressed and no delete failed. */
  lemma ReviewCounters(t: Table, posts: seq<FlaggedPost>, env: ReviewEnv)
    ensures var r := ReviewFrom(ReviewState(t, 0, 0, 0), posts, 0, env);
      r.kept + r.deleted + r.skipped <= |posts|
    ensures var r := ReviewFrom(ReviewState(t, 0, 0, 0), posts, 0, env);
      r.kept + r.deleted + r.skipped == |posts| <==>
        NoQuit(posts, 0, env.keys) && forall j :: 0 <= j < |posts| ==> !DeleteFails(posts, j, env)
  {
    var n := Reached(posts, 0, env.keys);
    ReviewTally(ReviewState(t, 0, 0, 0), posts, 0, env);
    ReachedEnd(posts, 0, env.keys);
    FailedDeletesZero(posts, 0, n, env);
  }

  /** The key loop of `main`. */
  method ReviewLoop(store: Store, posts: seq<FlaggedPost>, env: ReviewEnv)
      returns (kept: nat, deleted: nat, skipped: nat)
    modifies store
    ensures ReviewState(store.rows, kept, deleted, skipped) == ReviewFrom(ReviewState(old(store.rows), 0, 0, 0), posts, 0, env)
  {
    ghost var target := ReviewFrom(ReviewState(store.rows, 0, 0, 0), posts, 0, env);
    kept, deleted, skipped := 0, 0, 0;
    var i := 0;
    while i < |posts|
      invariant i <= |posts|
      invariant target == ReviewFrom(ReviewState(store.rows, kept, deleted, skipped), posts, i, env)
    {
      var post := posts[i];
      var action := ActionOf(env.keys(i));
      match action {
        case Keep => kept := kept + 1;
        case Delete =>
          if env.deleteOk(post.id) {
            store.Delete(post.id);
            deleted := deleted + 1;
          }
        case Skip => skipped := skipped + 1;
        case Quit =>
        case Unrecognised => skipped := skipped + 1;
      }
      if action == Quit {
        break;
      }
      i := i + 1;
    }
  }

  // ---------------------------------------------------------------------------
  // main

  /** How `main` ends: no key set (exit 1), a failed query, nothing flagged,
      or the summary of the key loop. */
  datatype ReviewOutcome =
    | MissingKey
    | QueryFailed
    | NothingFlagged
    | Reviewed(kept: nat, deleted: nat, skipped: nat, total: nat)

  datatype ReviewRun = ReviewRun(table: Table, outcome: ReviewOutcome)

  /** `main`, given whether a service or anon key is set. */
  function RunReview(t: Table, hasKey: bool, byTitle: FlaggedQuery, byName: FlaggedQuery, env: ReviewEnv): ReviewRun {
    if !hasKey then ReviewRun(t, MissingKey)
    else
      match FetchFlagged(byTitle, byName)
      case None => ReviewRun(t, QueryFailed)
      case Some(posts) =>
        if posts == [] then ReviewRun(t, NothingFlagged)
        else
          var r := ReviewFrom(ReviewState(t, 0, 0, 0), posts, 0, env);
          ReviewRun(r.table, Reviewed(r.kept, r.deleted, r.skipped, |posts|))
  }

  /** A run deletes nothing unless posts were flagged, deletes only flagged
      posts, and reports counters that add up to at most the total. */
  lemma RunReviewProperties(t: Table, hasKey: bool, byTitle: FlaggedQuery, byName: FlaggedQuery, env: ReviewEnv)
    ensures var r := RunReview(t, hasKey, byTitle, byName, env);
      !r.outcome.Reviewed? ==> r.table == t
    ensures var r := RunReview(t, hasKey, byTitle, byName, env);
      r.table.Keys <= t.Keys && forall k :: k in r.table ==> r.table[k] == t[k]
    ensures var r := RunReview(t, hasKey, byTitle, byName, env);
      r.outcome.Reviewed? ==>
        && r.outcome.kept + r.outcome.deleted + r.outcome.skipped <= r.outcome.total
        && t.Keys - r.table.Keys <= IdsOf(FetchFlagged(byTitle, byName).value)
  {
    var f := FetchFlagged(byTitle, byName);
    if hasKey && f.Some? && f.value != [] {
      var posts := f.value;
      ReviewCounters(t, posts, env);
      var n := Reached(posts, 0, env.keys);
      ReviewTally(ReviewState(t, 0, 0, 0), posts, 0, env);
      DeletedAreFlagged(posts, 0, n, env);
    }
  }

  lemma {:induction false} DeletedAreFlagged(posts: seq<FlaggedPost>, i: nat, n: nat, env: ReviewEnv)
    requires i <= n <= |posts|
    ensures DeletedIds(posts, i, n, env) <= IdsOf(posts)
    decreases n - i
  {
    if i < n {
      DeletedAreFlagged(posts, i + 1, n, env);
      assert posts[i] in posts;
    }
  }

  /** `main`. */
  method Run(store: Store, hasKey: bool, byTitle: FlaggedQuery, byName: FlaggedQuery, env: ReviewEnv)
      returns (outcome: ReviewOutcome)
    modifies store
    ensures ReviewRun(store.rows, outcome) == RunReview(old(store.rows), hasKey, byTitle, byName, env)
  {
    if !hasKey {
      return MissingKey;
    }
    var posts := FetchFlaggedPosts(byTitle, byName);
    if posts.None? {
      return QueryFailed;
    }
    if posts.value == [] {
      return NothingFlagged;
    }
    var kept, deleted, skipped := ReviewLoop(store, posts.value, env);
    outcome := Reviewed(kept, deleted, skipped, |posts.value|);
  }
}
