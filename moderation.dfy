/** What the daily sync and the two moderation scripts share: the list of
    sensitive title patterns, the auto-hide rule, and how the scripts gather
    flagged posts (every query's hits in turn, each id kept once, first hit
    wins, then a stable sort by score, highest first). */
module Moderation {
  import opened Common
  import opened Text

  /** The patterns a title is checked against (the same list in all three sources). */
  const SENSITIVE_PATTERNS: seq<string> := [
    "firearm", "gun", "shooting", "weapon",
    "protest", "rally",
    "political", "politics",
    "democrat", "republican", "conservative", "liberal",
    "trump", "biden", "obama", "maga",
    "immigration", "immigrant", "deportation",
    "abortion", "pro-life", "pro-choice",
    "vaccine", "antivax", "covid hoax",
    "racist", "racism", "white supremac", "nazi",
    "terrorist", "terrorism",
    "Alex Pretti"
  ]

  /** Some pattern, lower-cased, occurs in the lower-cased title. */
  predicate MatchesSensitive(title: string) {
    exists i :: 0 <= i < |SENSITIVE_PATTERNS| && Contains(ToLower(title), ToLower(SENSITIVE_PATTERNS[i]))
  }

  /** `!name || name.trim() === ''`: the name is missing or all white space
      (`NameBlankIff` relates this to `Trim`). */
  predicate NameBlank(name: Option<string>) {
    name.None? || AllSpace(name.value)
  }

  /** Every character of `s` is white space. */
  predicate AllSpace(s: string)
    decreases |s|
  {
    s == [] || (IsSpace(s[0]) && AllSpace(s[1..]))
  }

  /** A name is blank exactly when it is missing or trims to the empty string,
      that is, when it is missing or all white space (the empty string included). */
  lemma NameBlankIff(name: Option<string>)
    ensures NameBlank(name) <==> (name.None? || Trim(name.value) == "")
    ensures NameBlank(name) <==> (name.None? || forall k :: 0 <= k < |name.value| ==> IsSpace(name.value[k]))
  {
    if name.Some? {
      TrimEmpty(name.value);
      AllSpaceIff(name.value);
    }
  }

  lemma {:induction false} AllSpaceIff(s: string)
    ensures AllSpace(s) <==> forall k :: 0 <= k < |s| ==> IsSpace(s[k])
    decreases |s|
  {
    if s != [] {
      AllSpaceIff(s[1..]);
      assert forall k :: 1 <= k < |s| ==> s[k] == s[1..][k - 1];
    }
  }

  /** `shouldAutoHide`: a title matching a sensitive pattern, on a post with
      no image or no usable extracted name. */
  predicate ShouldAutoHide(title: string, imageUrl: Option<string>, extractedName: Option<string>) {
    MatchesSensitive(title) && (!Truthy(imageUrl) || NameBlank(extractedName))
  }

  /** Only the title decides whether a post is flagged, and case does not
      matter: titles that agree once lower-cased get the same decision. */
  lemma AutoHideIgnoresCase(title1: string, title2: string, imageUrl: Option<string>, extractedName: Option<string>)
    requires ToLower(title1) == ToLower(title2)
    ensures ShouldAutoHide(title1, imageUrl, extractedName) == ShouldAutoHide(title2, imageUrl, extractedName)
    ensures MatchesSensitive(title1) == MatchesSensitive(title2)
  {
  }

  /** A flagged title with an image and a usable name is left alone; without
      either it is hidden; a title that matches nothing is never hidden. */
  lemma AutoHideCases(title: string, imageUrl: Option<string>, extractedName: Option<string>)
    ensures !MatchesSensitive(title) ==> !ShouldAutoHide(title, imageUrl, extractedName)
    ensures MatchesSensitive(title) && !Truthy(imageUrl) ==> ShouldAutoHide(title, imageUrl, extractedName)
    ensures MatchesSensitive(title) && (extractedName.None? || extractedName == Some("")) ==> ShouldAutoHide(title, imageUrl, extractedName)
    ensures MatchesSensitive(title) && Truthy(imageUrl) && extractedName.Some?
            && (exists k :: 0 <= k < |extractedName.value| && !IsSpace(extractedName.value[k]))
            ==> !ShouldAutoHide(title, imageUrl, extractedName)
  {
    NameBlankIff(extractedName);
  }

  /** A title containing `gun` in any case is flagged. */
  lemma GunIsSensitive(title: string)
    requires Contains(ToLower(title), "gun")
    ensures MatchesSensitive(title)
  {
    assert SENSITIVE_PATTERNS[1] == "gun";
    assert ToLower("gun") == "gun";
  }

  /** The one mixed-case pattern is compared lower-cased: `alex pretti` in any case is flagged. */
  lemma MixedCasePattern(title: string)
    requires Contains(ToLower(title), "alex pretti")
    ensures MatchesSensitive(title)
  {
    var p := SENSITIVE_PATTERNS[|SENSITIVE_PATTERNS| - 1];
    assert p == "Alex Pretti";
    assert ToLower(p) == "alex pretti" by {
      assert LowerChar('A') == 'a';
      assert LowerChar('P') == 'p';
    }
  }

  // ---------------------------------------------------------------------------
  // Gathering flagged posts

  /** A row of the flagged-post queries. The review script selects no image
      column; its rows carry `None` there. */
  datatype FlaggedPost = FlaggedPost(
    id: string,
    title: string,
    url: string,
    imageUrl: Option<string>,
    extractedName: Option<string>,
    score: int)

  function IdsOf(s: seq<FlaggedPost>): set<string> {
    set x | x in s :: x.id
  }

  lemma IdsOfAppend(a: seq<FlaggedPost>, b: seq<FlaggedPost>)
    ensures IdsOf(a + b) == IdsOf(a) + IdsOf(b)
  {
    assert forall x :: x in a + b <==> x in a || x in b;
  }

  /** No id occurs twice. */
  predicate UniqueIds(s: seq<FlaggedPost>) {
    forall i, j :: 0 <= i < j < |s| ==> s[i].id != s[j].id
  }

  /** The first post of `s` that carries `id`. */
  function FirstWith(s: seq<FlaggedPost>, id: string): (r: FlaggedPost)
    requires id in IdsOf(s)
    ensures r in s && r.id == id
    decreases |s|
  {
    var init := s[..|s| - 1];
    assert s == init + [s[|s| - 1]];
    IdsOfAppend(init, [s[|s| - 1]]);
    if id in IdsOf(init) then FirstWith(init, id) else s[|s| - 1]
  }

  /** An id of `a` keeps its first post of `a` when more posts follow. */
  lemma {:induction false} FirstWithAppend(a: seq<FlaggedPost>, b: seq<FlaggedPost>, id: string)
    requires id in IdsOf(a)
    ensures id in IdsOf(a + b)
    ensures FirstWith(a + b, id) == FirstWith(a, id)
    decreases |b|
  {
    IdsOfAppend(a, b);
    if b != [] {
      var s := a + b;
      assert s[..|s| - 1] == a + b[..|b| - 1];
      IdsOfAppend(a, b[..|b| - 1]);
      FirstWithAppend(a, b[..|b| - 1], id);
    } else {
      assert a + b == a;
    }
  }

  /** The inner loop of `fetchFlaggedPosts`: each post whose id has not been
      seen yet is appended, in order. */
  function AddUnseen(all: seq<FlaggedPost>, posts: seq<FlaggedPost>): seq<FlaggedPost>
    decreases |posts|
  {
    if posts == [] then all
    else
      var before := AddUnseen(all, posts[..|posts| - 1]);
      var p := posts[|posts| - 1];
      if p.id in IdsOf(before) then before else before + [p]
  }

  /** What appending the unseen posts leaves: the old list as a prefix, every
      id of either list exactly once, and for every new id the first post of
      `posts` that carries it. */
  lemma AddUnseenSpec(all: seq<FlaggedPost>, posts: seq<FlaggedPost>)
    ensures all <= AddUnseen(all, posts)
    ensures IdsOf(AddUnseen(all, posts)) == IdsOf(all) + IdsOf(posts)
    ensures UniqueIds(all) ==> UniqueIds(AddUnseen(all, posts))
    ensures forall x :: x in AddUnseen(all, posts) && x.id !in IdsOf(all) ==>
      x.id in IdsOf(posts) && x == FirstWith(posts, x.id)
  {
    AddUnseenIds(all, posts);
    if UniqueIds(all) {
      AddUnseenUnique(all, posts);
    }
    AddUnseenFirst(all, posts);
  }

  lemma {:induction false} AddUnseenIds(all: seq<FlaggedPost>, posts: seq<FlaggedPost>)
    ensures all <= AddUnseen(all, posts)
    ensures IdsOf(AddUnseen(all, posts)) == IdsOf(all) + IdsOf(posts)
    decreases |posts|
  {
    if posts != [] {
      var init := posts[..|posts| - 1];
      var p := posts[|posts| - 1];
      var before := AddUnseen(all, init);
      AddUnseenIds(all, init);
      assert posts == init + [p];
      IdsOfAppend(init, [p]);
      IdsOfAppend(before, [p]);
    }
  }

  lemma {:induction false} AddUnseenUnique(all: seq<FlaggedPost>, posts: seq<FlaggedPost>)
    requires UniqueIds(all)
    ensures UniqueIds(AddUnseen(all, posts))
    decreases |posts|
  {
    if posts != [] {
      var init := posts[..|posts| - 1];
      var p := posts[|posts| - 1];
      var before := AddUnseen(all, init);
      AddUnseenUnique(all, init);
      if p.id !in IdsOf(before) {
        UniqueSnoc(before, p);
      }
    }
  }

  lemma UniqueSnoc(s: seq<FlaggedPost>, p: FlaggedPost)
    requires UniqueIds(s) && p.id !in IdsOf(s)
    ensures UniqueIds(s + [p])
  {
    var r := s + [p];
    forall i, j | 0 <= i < j < |r| ensures r[i].id != r[j].id {
      assert r[i] == s[i];
      if j < |s| {
        assert r[j] == s[j];
      } else {
        assert s[i] in s;
      }
    }
  }

  lemma {:induction false} AddUnseenFirst(all: seq<FlaggedPost>, posts: seq<FlaggedPost>)
    ensures forall x :: x in AddUnseen(all, posts) && x.id !in IdsOf(all) ==>
      x.id in IdsOf(posts) && x == FirstWith(posts, x.id)
    decreases |posts|
  {
    if posts != [] {
      var init := posts[..|posts| - 1];
      var p := posts[|posts| - 1];
      var before := AddUnseen(all, init);
      AddUnseenFirst(all, init);
      AddUnseenIds(all, init);
      assert posts == init + [p];
      IdsOfAppend(init, [p]);
      var r := AddUnseen(all, posts);
      forall x | x in r && x.id !in IdsOf(all)
        ensures x.id in IdsOf(posts) && x == FirstWith(posts, x.id)
      {
        if x in before {
          assert x.id in IdsOf(init);
        } else {
          assert x == p;
          assert p.id !in IdsOf(before);
        }
      }
    }
  }

  /** An id already gathered keeps the post it was gathered with. */
  lemma AddUnseenKeepsEarlier(all: seq<FlaggedPost>, posts: seq<FlaggedPost>)
    requires UniqueIds(all)
    ensures forall x :: x in AddUnseen(all, posts) && x.id in IdsOf(all) ==> x in all
  {
    AddUnseenSpec(all, posts);
    var r := AddUnseen(all, posts);
    forall x | x in r && x.id in IdsOf(all) ensures x in all {
      var k :| 0 <= k < |r| && r[k] == x;
      var j :| 0 <= j < |all| && all[j].id == x.id;
      assert r[j] == all[j];
    }
  }

  /** Two runs of the inner loop in a row are one run over both lists. */
  lemma {:induction false} AddUnseenAppend(all: seq<FlaggedPost>, a: seq<FlaggedPost>, b: seq<FlaggedPost>)
    ensures AddUnseen(all, a + b) == AddUnseen(AddUnseen(all, a), b)
    decreases |b|
  {
    if b != [] {
      assert (a + b)[..|a + b| - 1] == a + b[..|b| - 1];
      assert (a + b)[|a + b| - 1] == b[|b| - 1];
      AddUnseenAppend(all, a, b[..|b| - 1]);
    } else {
      assert a + b == a;
    }
  }

  /** The inner loop: `if (!seenIds.has(post.id)) { seenIds.add(post.id); allFlagged.push(post) }`. */
  method Absorb(seen: set<string>, all: seq<FlaggedPost>, posts: seq<FlaggedPost>)
      returns (seen': set<string>, all': seq<FlaggedPost>)
    requires seen == IdsOf(all)
    ensures all' == AddUnseen(all, posts)
    ensures seen' == IdsOf(all')
  {
    seen', all' := seen, all;
    var i := 0;
    while i < |posts|
      invariant i <= |posts|
      invariant all' == AddUnseen(all, posts[..i])
      invariant seen' == IdsOf(all')
    {
      var post := posts[i];
      assert posts[..i + 1][..i] == posts[..i];
      if post.id !in seen' {
        IdsOfAppend(all', [post]);
        seen' := seen' + {post.id};
        all' := all' + [post];
      }
      i := i + 1;
    }
    assert posts[..i] == posts;
  }

  // ---------------------------------------------------------------------------
  // Sorting by score

  /** Highest score first. */
  predicate SortedByScore(s: seq<FlaggedPost>) {
    forall i, j :: 0 <= i < j < |s| ==> s[i].score >= s[j].score
  }

  /** `x` placed before the first post that does not outscore it. */
  function InsertByScore(x: FlaggedPost, s: seq<FlaggedPost>): (r: seq<FlaggedPost>)
    ensures multiset(r) == multiset(s) + multiset{x}
    ensures |r| == |s| + 1
  {
    if s == [] || x.score >= s[0].score then [x] + s
    else
      assert s == [s[0]] + s[1..];
      [s[0]] + InsertByScore(x, s[1..])
  }

  /** `allFlagged.sort((a, b) => b.score - a.score)`: a stable sort (what
      `Array.prototype.sort` is required to be), highest score first. */
  function SortByScore(s: seq<FlaggedPost>): (r: seq<FlaggedPost>)
    ensures multiset(r) == multiset(s)
    ensures |r| == |s|
  {
    if s == [] then [] else
      assert s == [s[0]] + s[1..];
      InsertByScore(s[0], SortByScore(s[1..]))
  }

  lemma {:induction false} InsertByScoreSorted(x: FlaggedPost, s: seq<FlaggedPost>)
    requires SortedByScore(s)
    ensures SortedByScore(InsertByScore(x, s))
    ensures InsertByScore(x, s) != [] && (InsertByScore(x, s)[0] == x || (s != [] && InsertByScore(x, s)[0] == s[0]))
  {
    if s != [] && x.score < s[0].score {
      var t := InsertByScore(x, s[1..]);
      InsertByScoreSorted(x, s[1..]);
      InsertByScoreBound(x, s[1..], s[0].score);
      SortedCons(s[0], t);
    }
  }

  /** No score above `b` comes in through an insert. */
  lemma {:induction false} InsertByScoreBound(x: FlaggedPost, s: seq<FlaggedPost>, b: int)
    requires x.score <= b
    requires forall k :: 0 <= k < |s| ==> s[k].score <= b
    ensures forall k :: 0 <= k < |InsertByScore(x, s)| ==> InsertByScore(x, s)[k].score <= b
  {
    if s != [] && x.score < s[0].score {
      InsertByScoreBound(x, s[1..], b);
    }
  }

  lemma SortedCons(p: FlaggedPost, t: seq<FlaggedPost>)
    requires SortedByScore(t)
    requires forall k :: 0 <= k < |t| ==> t[k].score <= p.score
    ensures SortedByScore([p] + t)
  {
    var r := [p] + t;
    forall i, j | 0 <= i < j < |r| ensures r[i].score >= r[j].score {
      assert r[j] == t[j - 1];
      if i > 0 {
        assert r[i] == t[i - 1];
      }
    }
  }

  /** The sorted list is ordered by score, highest first. */
  lemma {:induction false} SortByScoreSorted(s: seq<FlaggedPost>)
    ensures SortedByScore(SortByScore(s))
  {
    if s != [] {
      SortByScoreSorted(s[1..]);
      InsertByScoreSorted(s[0], SortByScore(s[1..]));
    }
  }

  /** The posts of one score, in order. */
  function WithScore(s: seq<FlaggedPost>, v: int): (r: seq<FlaggedPost>) {
    if s == [] then [] else (if s[0].score == v then [s[0]] else []) + WithScore(s[1..], v)
  }

  lemma {:induction false} InsertByScoreWithScore(x: FlaggedPost, s: seq<FlaggedPost>, v: int)
    ensures WithScore(InsertByScore(x, s), v) == (if x.score == v then [x] else []) + WithScore(s, v)
  {
    if s != [] && x.score < s[0].score {
      InsertByScoreWithScore(x, s[1..], v);
      var r := InsertByScore(x, s);
      assert r == [s[0]] + InsertByScore(x, s[1..]);
      assert r[1..] == InsertByScore(x, s[1..]);
    } else {
      assert ([x] + s)[1..] == s;
    }
  }

  /** The sort is stable: posts with the same score keep their relative order. */
  lemma {:induction false} SortByScoreStable(s: seq<FlaggedPost>, v: int)
    ensures WithScore(SortByScore(s), v) == WithScore(s, v)
  {
    if s != [] {
      SortByScoreStable(s[1..], v);
      InsertByScoreWithScore(s[0], SortByScore(s[1..]), v);
    }
  }

  /** Inserting a post with a new id keeps the ids distinct and adds that id. */
  lemma {:induction false} InsertByScoreIds(x: FlaggedPost, s: seq<FlaggedPost>)
    requires UniqueIds(s) && x.id !in IdsOf(s)
    ensures IdsOf(InsertByScore(x, s)) == IdsOf(s) + {x.id}
    ensures UniqueIds(InsertByScore(x, s))
  {
    if s == [] || x.score >= s[0].score {
      IdsOfAppend([x], s);
      assert forall k :: 0 <= k < |s| ==> s[k] in s;
    } else {
      assert s == [s[0]] + s[1..];
      IdsOfAppend([s[0]], s[1..]);
      assert UniqueIds(s[1..]) by {
        forall i, j | 0 <= i < j < |s[1..]| ensures s[1..][i].id != s[1..][j].id {
          assert s[1..][i] == s[i + 1] && s[1..][j] == s[j + 1];
        }
      }
      InsertByScoreIds(x, s[1..]);
      var t := InsertByScore(x, s[1..]);
      IdsOfAppend([s[0]], t);
      assert s[0].id !in IdsOf(s[1..]) by {
        forall k | 0 <= k < |s[1..]| ensures s[1..][k].id != s[0].id {
          assert s[1..][k] == s[k + 1];
        }
      }
      assert forall k :: 0 <= k < |t| ==> t[k] in t;
    }
  }

  /** Sorting keeps the set of ids and keeps them distinct. */
  lemma {:induction false} SortByScoreKeepsIds(s: seq<FlaggedPost>)
    requires UniqueIds(s)
    ensures IdsOf(SortByScore(s)) == IdsOf(s)
    ensures UniqueIds(SortByScore(s))
  {
    if s != [] {
      assert s == [s[0]] + s[1..];
      IdsOfAppend([s[0]], s[1..]);
      assert UniqueIds(s[1..]) by {
        forall i, j | 0 <= i < j < |s[1..]| ensures s[1..][i].id != s[1..][j].id {
          assert s[1..][i] == s[i + 1] && s[1..][j] == s[j + 1];
        }
      }
      assert s[0].id !in IdsOf(s[1..]) by {
        forall k | 0 <= k < |s[1..]| ensures s[1..][k].id != s[0].id {
          assert s[1..][k] == s[k + 1];
        }
      }
      SortByScoreKeepsIds(s[1..]);
      InsertByScoreIds(s[0], SortByScore(s[1..]));
    }
  }
}
