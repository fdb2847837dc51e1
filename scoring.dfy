/** The card score: the points of the chosen behaviours, the headline bonus
    and a bonus for Reddit posts add up to the total, which picks the tier;
    the class is the one most tagged by the chosen behaviours; and four stats
    in 0..99 are derived from the same choices. The behaviour table is a
    parameter. */
module Scoring {
  import opened Common
  import opened Text
  import Headlines
  import Tiers

  datatype LunaticClass =
    | HumbleBragger
    | ThoughtLeader
    | HustleBro
    | GriefExploiter
    | CorporatePoet
    | SelfieCeo
    | RecruiterCringe
    | EngagementFarmer
    | InspirationalLiar
    | ReplyGuy
    | GenericProfessional

  /** `CLASS_EMOJIS`. */
  function ClassEmoji(c: LunaticClass): string {
    match c
    case HumbleBragger => "🏆"
    case ThoughtLeader => "🧠"
    case HustleBro => "💪"
    case GriefExploiter => "😢"
    case CorporatePoet => "✍️"
    case SelfieCeo => "🤳"
    case RecruiterCringe => "📞"
    case EngagementFarmer => "🌾"
    case InspirationalLiar => "🎭"
    case ReplyGuy => "💬"
    case GenericProfessional => "👔"
  }

  /** No two classes share an emoji. */
  lemma ClassEmojiInjective(a: LunaticClass, b: LunaticClass)
    ensures ClassEmoji(a) == ClassEmoji(b) ==> a == b
  {
  }

  /** A row of the behaviour table (its label and emoji are not used here). */
  datatype Behavior = Behavior(id: string, points: int, classTags: seq<LunaticClass>)

  /** `behaviors.find(b => b.id === id)`: the first row with that id. */
  function Find(bs: seq<Behavior>, id: string): (r: Option<Behavior>)
    ensures r.Some? ==> r.value in bs && r.value.id == id
    ensures r.None? <==> forall b :: b in bs ==> b.id != id
    ensures r.Some? ==> exists i :: 0 <= i < |bs| && bs[i] == r.value && forall j :: 0 <= j < i ==> bs[j].id != id
  {
    if bs == [] then None
    else if bs[0].id == id then Some(bs[0])
    else
      var r := Find(bs[1..], id);
      assert r.Some? ==> exists i :: 0 <= i < |bs| && bs[i] == r.value && forall j :: 0 <= j < i ==> bs[j].id != id by {
        if r.Some? {
          var i :| 0 <= i < |bs[1..]| && bs[1..][i] == r.value && forall j :: 0 <= j < i ==> bs[1..][j].id != id;
          assert bs[i + 1] == r.value && forall j :: 0 <= j < i + 1 ==> bs[j].id != id;
        }
      }
      r
  }

  // ---------------------------------------------------------------------------
  // assignClass

  /** The class tags of the row with that id; none for an unknown id. */
  function TagsOf(bs: seq<Behavior>, id: string): seq<LunaticClass> {
    match Find(bs, id)
    case None => []
    case Some(b) => b.classTags
  }

  /** Every tag of every chosen behaviour, in the order they are counted. */
  function Tags(bs: seq<Behavior>, ids: seq<string>): seq<LunaticClass> {
    if ids == [] then [] else Tags(bs, ids[..|ids| - 1]) + TagsOf(bs, ids[|ids| - 1])
  }

  /** Ids the table does not have contribute no tag. */
  lemma {:induction false} TagsOfUnknown(bs: seq<Behavior>, ids: seq<string>)
    requires forall k :: 0 <= k < |ids| ==> Find(bs, ids[k]).None?
    ensures Tags(bs, ids) == []
  {
    if ids != [] {
      TagsOfUnknown(bs, ids[..|ids| - 1]);
    }
  }

  /** The classes of `s` in the order of their first occurrence: the order in
      which `tagCounts` gets its keys. */
  function Distinct(s: seq<LunaticClass>): (d: seq<LunaticClass>)
    ensures forall x :: x in d <==> x in s
    ensures forall i, j :: 0 <= i < j < |d| ==> d[i] != d[j]
  {
    if s == [] then []
    else
      var d := Distinct(s[..|s| - 1]);
      assert s == s[..|s| - 1] + [s[|s| - 1]];
      if s[|s| - 1] in d then d else d + [s[|s| - 1]]
  }

  /** The position of the first occurrence of `x`. */
  function FirstIndex(s: seq<LunaticClass>, x: LunaticClass): (r: nat)
    requires x in s
    ensures r < |s| && s[r] == x
    ensures forall j :: 0 <= j < r ==> s[j] != x
  {
    if s[0] == x then 0 else 1 + FirstIndex(s[1..], x)
  }

  lemma FirstIndexSnoc(p: seq<LunaticClass>, x: LunaticClass, y: LunaticClass)
    requires y in p
    ensures FirstIndex(p + [x], y) == FirstIndex(p, y)
  {
    var a := FirstIndex(p + [x], y);
    var b := FirstIndex(p, y);
    assert (p + [x])[b] == y;
  }

  /** The keys come in the order of the first occurrence of each class. */
  lemma {:induction false} DistinctOrder(s: seq<LunaticClass>)
    ensures forall i, j :: 0 <= i < j < |Distinct(s)| ==> FirstIndex(s, Distinct(s)[i]) < FirstIndex(s, Distinct(s)[j])
  {
    if s != [] {
      var p := s[..|s| - 1];
      var x := s[|s| - 1];
      assert s == p + [x];
      DistinctOrder(p);
      var d := Distinct(p);
      forall i, j | 0 <= i < j < |Distinct(s)|
        ensures FirstIndex(s, Distinct(s)[i]) < FirstIndex(s, Distinct(s)[j])
      {
        assert Distinct(s)[i] == d[i];
        FirstIndexSnoc(p, x, d[i]);
        if j < |d| {
          assert Distinct(s)[j] == d[j];
          FirstIndexSnoc(p, x, d[j]);
        } else {
          assert Distinct(s)[j] == x && x !in p;
          assert forall k :: 0 <= k < |p| ==> s[k] == p[k];
        }
      }
    }
  }

  /** The state of the winner loop: the largest count so far and its class. */
  datatype Pick = Pick(maxCount: nat, winner: LunaticClass)

  /** The winner loop over `keys` with the counts `m`, from 0 and Generic
      Professional: a class takes over only with a strictly larger count. */
  function WinnerOf(keys: seq<LunaticClass>, m: multiset<LunaticClass>): Pick {
    if keys == [] then Pick(0, GenericProfessional)
    else
      var p := WinnerOf(keys[..|keys| - 1], m);
      var k := keys[|keys| - 1];
      if m[k] > p.maxCount then Pick(m[k], k) else p
  }

  /** The loop ends with the largest count of any key; with a positive one its
      winner is the first key having it, and with none Generic Professional. */
  lemma {:induction false} WinnerOfSpec(keys: seq<LunaticClass>, m: multiset<LunaticClass>)
    ensures var p := WinnerOf(keys, m);
      && (forall k :: k in keys ==> m[k] <= p.maxCount)
      && (p.maxCount == 0 ==> p.winner == GenericProfessional)
      && (p.maxCount > 0 ==>
            exists i :: 0 <= i < |keys| && keys[i] == p.winner && m[p.winner] == p.maxCount
              && forall j :: 0 <= j < i ==> m[keys[j]] < p.maxCount)
  {
    if keys != [] {
      var q := keys[..|keys| - 1];
      var k := keys[|keys| - 1];
      assert keys == q + [k];
      WinnerOfSpec(q, m);
      var p := WinnerOf(q, m);
      if m[k] > p.maxCount {
        assert forall j :: 0 <= j < |keys| - 1 ==> m[keys[j]] < m[k] by {
          forall j | 0 <= j < |keys| - 1 ensures m[keys[j]] < m[k] {
            assert keys[j] == q[j] && q[j] in q;
          }
        }
      } else if p.maxCount > 0 {
        var i :| 0 <= i < |q| && q[i] == p.winner && m[p.winner] == p.maxCount
          && forall j :: 0 <= j < i ==> m[q[j]] < p.maxCount;
        assert keys[i] == p.winner;
        assert forall j :: 0 <= j < i ==> keys[j] == q[j];
      }
    }
  }

  /** `assignClass`: Generic Professional for no ids, otherwise the winner of
      the counts of the tags in first-occurrence order. */
  function AssignClass(bs: seq<Behavior>, ids: seq<string>): LunaticClass {
    if ids == [] then GenericProfessional
    else
      var tags := Tags(bs, ids);
      WinnerOf(Distinct(tags), multiset(tags)).winner
  }

  /** With no tags (no ids, or none the table knows, or rows without tags)
      the class is Generic Professional; otherwise it is one of the tags, no
      tag occurs more often, and among the tags occurring as often it is the
      one that occurs first. */
  lemma AssignClassSpec(bs: seq<Behavior>, ids: seq<string>)
    ensures var tags := Tags(bs, ids);
      var c := AssignClass(bs, ids);
      && (tags == [] ==> c == GenericProfessional)
      && (tags != [] ==>
            && c in tags
            && (forall x :: x in tags ==> multiset(tags)[x] <= multiset(tags)[c])
            && (forall x :: x in tags && multiset(tags)[x] == multiset(tags)[c] ==> FirstIndex(tags, c) <= FirstIndex(tags, x)))
  {
    if ids != [] {
      WinnerOfTags(Tags(bs, ids));
    }
  }

  /** The winner over the tags' first-occurrence order is a most frequent tag,
      the earliest of them; Generic Professional when there is no tag. */
  lemma WinnerOfTags(tags: seq<LunaticClass>)
    ensures var c := WinnerOf(Distinct(tags), multiset(tags)).winner;
      && (tags == [] ==> c == GenericProfessional)
      && (tags != [] ==>
            && c in tags
            && (forall x :: x in tags ==> multiset(tags)[x] <= multiset(tags)[c])
            && (forall x :: x in tags && multiset(tags)[x] == multiset(tags)[c] ==> FirstIndex(tags, c) <= FirstIndex(tags, x)))
  {
    if tags != [] {
      WinnerIsMax(tags);
      WinnerIsEarliest(tags);
    }
  }

  lemma WinnerIsMax(tags: seq<LunaticClass>)
    requires tags != []
    ensures var c := WinnerOf(Distinct(tags), multiset(tags)).winner;
      && c in tags
      && (forall x :: x in tags ==> multiset(tags)[x] <= multiset(tags)[c])
  {
    var d := Distinct(tags);
    var m := multiset(tags);
    WinnerOfSpec(d, m);
    assert tags[0] in d;
  }

  lemma WinnerIsEarliest(tags: seq<LunaticClass>)
    requires tags != []
    ensures var c := WinnerOf(Distinct(tags), multiset(tags)).winner;
      c in tags && forall x :: x in tags && multiset(tags)[x] == multiset(tags)[c] ==> FirstIndex(tags, c) <= FirstIndex(tags, x)
  {
    var d := Distinct(tags);
    var m := multiset(tags);
    var p := WinnerOf(d, m);
    WinnerOfSpec(d, m);
    assert tags[0] in d;
    var i :| 0 <= i < |d| && d[i] == p.winner && m[p.winner] == p.maxCount
      && forall j :: 0 <= j < i ==> m[d[j]] < p.maxCount;
    forall x | x in tags && m[x] == m[p.winner]
      ensures FirstIndex(tags, p.winner) <= FirstIndex(tags, x)
    {
      var j :| 0 <= j < |d| && d[j] == x;
      assert i <= j;
      DistinctOrderPair(tags, i, j);
    }
  }

  lemma DistinctOrderPair(tags: seq<LunaticClass>, i: nat, j: nat)
    requires i <= j < |Distinct(tags)|
    ensures FirstIndex(tags, Distinct(tags)[i]) <= FirstIndex(tags, Distinct(tags)[j])
  {
    if i < j {
      DistinctOrder(tags);
    }
  }

  /** Ids the table does not know leave the class at Generic Professional. */
  lemma UnknownIdsGeneric(bs: seq<Behavior>, ids: seq<string>)
    requires forall k :: 0 <= k < |ids| ==> Find(bs, ids[k]).None?
    ensures AssignClass(bs, ids) == GenericProfessional
  {
    TagsOfUnknown(bs, ids);
    AssignClassSpec(bs, ids);
  }

  /** `tagCounts` with its key order: `counts` holds the count of every tag
      seen so far and `keys` its keys in insertion order. */
  ghost predicate CountsOf(counts: map<LunaticClass, nat>, keys: seq<LunaticClass>, tags: seq<LunaticClass>) {
    && keys == Distinct(tags)
    && (forall k :: k in counts <==> k in tags)
    && (forall k :: k in counts ==> counts[k] == multiset(tags)[k])
  }

  /** `tagCounts[tag] = (tagCounts[tag] || 0) + 1` on a tag already counted
      keeps the counts right. */
  lemma AddKnownTag(counts: map<LunaticClass, nat>, keys: seq<LunaticClass>, tags: seq<LunaticClass>, tag: LunaticClass)
    requires CountsOf(counts, keys, tags) && tag in counts
    ensures CountsOf(counts[tag := counts[tag] + 1], keys, tags + [tag])
  {
    DistinctSnoc(tags, tag);
    MultisetSnoc(tags, tag);
  }

  /** The same on a tag seen for the first time, which becomes the last key. */
  lemma AddNewTag(counts: map<LunaticClass, nat>, keys: seq<LunaticClass>, tags: seq<LunaticClass>, tag: LunaticClass)
    requires CountsOf(counts, keys, tags) && tag !in counts
    ensures CountsOf(counts[tag := 1], keys + [tag], tags + [tag])
  {
    DistinctSnoc(tags, tag);
    MultisetSnoc(tags, tag);
  }

  lemma DistinctSnoc(tags: seq<LunaticClass>, tag: LunaticClass)
    ensures Distinct(tags + [tag]) == if tag in tags then Distinct(tags) else Distinct(tags) + [tag]
  {
    assert (tags + [tag])[..|tags|] == tags;
  }

  lemma MultisetSnoc(tags: seq<LunaticClass>, tag: LunaticClass)
    ensures forall k :: k in tags + [tag] <==> k in tags || k == tag
    ensures forall k :: multiset(tags + [tag])[k] == multiset(tags)[k] + (if k == tag then 1 else 0)
  {
    assert multiset(tags + [tag]) == multiset(tags) + multiset{tag};
  }

  /** The inner counting loop, over one behaviour's tags. */
  method CountBehaviorTags(counts0: map<LunaticClass, nat>, keys0: seq<LunaticClass>, ghost done: seq<LunaticClass>, classTags: seq<LunaticClass>)
    returns (counts: map<LunaticClass, nat>, keys: seq<LunaticClass>)
    requires CountsOf(counts0, keys0, done)
    ensures CountsOf(counts, keys, done + classTags)
  {
    counts, keys := counts0, keys0;
    var j := 0;
    assert done + classTags[..0] == done;
    while j < |classTags|
      invariant 0 <= j <= |classTags|
      invariant CountsOf(counts, keys, done + classTags[..j])
    {
      var tag := classTags[j];
      SnocSlice(done, classTags, j);
      if tag in counts {
        AddKnownTag(counts, keys, done + classTags[..j], tag);
        counts := counts[tag := counts[tag] + 1];
      } else {
        AddNewTag(counts, keys, done + classTags[..j], tag);
        counts := counts[tag := 1];
        keys := keys + [tag];
      }
      j := j + 1;
    }
    assert classTags[..j] == classTags;
  }

  lemma SnocSlice(done: seq<LunaticClass>, s: seq<LunaticClass>, j: nat)
    requires j < |s|
    ensures done + s[..j + 1] == (done + s[..j]) + [s[j]]
  {
    assert s[..j + 1] == s[..j] + [s[j]];
  }

  /** The counting loops of `assignClass`. */
  method CountTags(bs: seq<Behavior>, ids: seq<string>) returns (counts: map<LunaticClass, nat>, keys: seq<LunaticClass>)
    ensures CountsOf(counts, keys, Tags(bs, ids))
  {
    counts := map[];
    keys := [];
    var i := 0;
    while i < |ids|
      invariant 0 <= i <= |ids|
      invariant CountsOf(counts, keys, Tags(bs, ids[..i]))
    {
      TagsSnoc(bs, ids, i);
      var behavior := Find(bs, ids[i]);
      if behavior.Some? {
        counts, keys := CountBehaviorTags(counts, keys, Tags(bs, ids[..i]), behavior.value.classTags);
      }
      i := i + 1;
    }
    assert ids[..i] == ids;
  }

  lemma TagsSnoc(bs: seq<Behavior>, ids: seq<string>, i: nat)
    requires i < |ids|
    ensures Find(bs, ids[i]).None? ==> Tags(bs, ids[..i + 1]) == Tags(bs, ids[..i])
    ensures Find(bs, ids[i]).Some? ==> Tags(bs, ids[..i + 1]) == Tags(bs, ids[..i]) + Find(bs, ids[i]).value.classTags
  {
    assert ids[..i + 1][..i] == ids[..i];
    assert Tags(bs, ids[..i]) + [] == Tags(bs, ids[..i]);
  }

  /** The winner loop of `assignClass` over the keys in insertion order. */
  method PickWinner(keys: seq<LunaticClass>, counts: map<LunaticClass, nat>, ghost m: multiset<LunaticClass>) returns (winner: LunaticClass)
    requires forall k :: k in keys ==> k in counts && counts[k] == m[k]
    ensures winner == WinnerOf(keys, m).winner
  {
    var maxCount: nat := 0;
    winner := GenericProfessional;
    var i := 0;
    while i < |keys|
      invariant 0 <= i <= |keys|
      invariant Pick(maxCount, winner) == WinnerOf(keys[..i], m)
    {
      assert keys[..i + 1][..i] == keys[..i];
      var count := counts[keys[i]];
      if count > maxCount {
        maxCount := count;
        winner := keys[i];
      }
      i := i + 1;
    }
    assert keys[..i] == keys;
  }

  /** `assignClass` with its loops. */
  method RunAssignClass(bs: seq<Behavior>, ids: seq<string>) returns (c: LunaticClass)
    ensures c == AssignClass(bs, ids)
  {
    if |ids| == 0 {
      return GenericProfessional;
    }
    var counts, keys := CountTags(bs, ids);
    ghost var tags := Tags(bs, ids);
    assert forall k :: k in keys ==> k in counts && counts[k] == multiset(tags)[k];
    c := PickWinner(keys, counts, multiset(tags));
  }

  // ---------------------------------------------------------------------------
  // calculateStats

  const MAX_STAT: int := 99
  const MAX_POSSIBLE_CRINGE: int := 20
  const ENGAGEMENT_IDS: seq<string> := ["agree", "emoji-bullets", "fake-poll", "hashtag-overload", "reply-every"]
  const DELUSION_IDS: seq<string> := ["thought-leader", "reject-offer", "humble-brag", "fake-convo", "life-hack"]
  const HUSTLE_IDS: seq<string> := ["hustle-grind", "reject-offer", "humble-brag", "fired-post", "airport-selfie"]

  /** `bs.filter(b => ids.includes(b.id))`. */
  function Selected(bs: seq<Behavior>, ids: seq<string>): seq<Behavior> {
    if bs == [] then []
    else (if bs[0].id in ids then [bs[0]] else []) + Selected(bs[1..], ids)
  }

  /** The filter keeps, in table order, exactly the rows whose id is listed;
      a row is kept once however often its id is listed. */
  lemma {:induction false} SelectedSpec(bs: seq<Behavior>, ids: seq<string>)
    ensures IsSubsequence(Selected(bs, ids), bs)
    ensures forall b :: b in Selected(bs, ids) <==> b in bs && b.id in ids
    ensures |Selected(bs, ids)| <= |bs|
  {
    if bs != [] {
      SelectedSpec(bs[1..], ids);
      var rest := Selected(bs[1..], ids);
      assert bs == [bs[0]] + bs[1..];
      if bs[0].id in ids {
        assert Selected(bs, ids) == [bs[0]] + rest;
        assert Selected(bs, ids)[1..] == rest;
      } else {
        assert Selected(bs, ids) == rest;
        if rest != [] && rest[0] == bs[0] {
          assert rest[0] in rest;
        }
      }
    }
  }

  /** The filter depends only on which ids are listed, not on their order or
      repetition. */
  lemma {:induction false} SelectedBySet(bs: seq<Behavior>, ids: seq<string>, ids2: seq<string>)
    requires forall x :: x in ids <==> x in ids2
    ensures Selected(bs, ids) == Selected(bs, ids2)
  {
    if bs != [] {
      SelectedBySet(bs[1..], ids, ids2);
    }
  }

  /** `selected.reduce((max, b) => Math.max(max, b.points), 0)`. */
  function MaxPoints(sel: seq<Behavior>): int {
    if sel == [] then 0 else Max(MaxPoints(sel[..|sel| - 1]), sel[|sel| - 1].points)
  }

  /** The fold is 0 or more, no row has more points, and a positive result is
      the points of one of the rows. */
  lemma {:induction false} MaxPointsSpec(sel: seq<Behavior>)
    ensures MaxPoints(sel) >= 0
    ensures forall b :: b in sel ==> b.points <= MaxPoints(sel)
    ensures MaxPoints(sel) > 0 ==> exists b :: b in sel && b.points == MaxPoints(sel)
  {
    if sel != [] {
      var p := sel[..|sel| - 1];
      assert sel == p + [sel[|sel| - 1]];
      MaxPointsSpec(p);
    }
  }

  datatype StatBlock = StatBlock(CRG: int, ENG: int, DEL: int, HST: int)

  /** `selected.length > 5 ? 20 : selected.length * 4`. */
  function SelectionBonus(n: nat): (b: nat)
    ensures b <= 20
  {
    if n > 5 then 20 else n * 4
  }

  /** `Math.round((h / 20) * 70 + selectionBonus)` for a whole `h` of 0 or
      more: 7h/2 rounded half up, plus the selection bonus. */
  function CringeRaw(sel: seq<Behavior>): int {
    var h := MaxPoints(sel);
    (7 * h + 1) / 2 + SelectionBonus(|sel|)
  }

  function EngagementRaw(sel: seq<Behavior>, headlineBonus: nat): int {
    |Selected(sel, ENGAGEMENT_IDS)| * 18 + headlineBonus * 2 + |sel| * 3
  }

  function DelusionRaw(sel: seq<Behavior>, headlineBonus: nat): int {
    |Selected(sel, DELUSION_IDS)| * 20 + headlineBonus * 3
  }

  function HustleRaw(sel: seq<Behavior>, redditFound: bool): int {
    |Selected(sel, HUSTLE_IDS)| * 18 + (if redditFound then 15 else 0) + |sel| * 2
  }

  /** `calculateStats`: each stat is its raw value capped at 99. */
  function Stats(bs: seq<Behavior>, ids: seq<string>, headlineBonus: nat, redditFound: bool): (s: StatBlock)
    ensures 0 <= s.CRG <= MAX_STAT && 0 <= s.ENG <= MAX_STAT
    ensures 0 <= s.DEL <= MAX_STAT && 0 <= s.HST <= MAX_STAT
  {
    var sel := Selected(bs, ids);
    MaxPointsSpec(sel);
    StatBlock(
      Min(MAX_STAT, CringeRaw(sel)),
      Min(MAX_STAT, EngagementRaw(sel, headlineBonus)),
      Min(MAX_STAT, DelusionRaw(sel, headlineBonus)),
      Min(MAX_STAT, HustleRaw(sel, redditFound)))
  }

  /** Hustle gains exactly 15 from Reddit posts, up to the cap: the gain is
      15 when the stat without them is 84 or less, and the rest up to 99
      otherwise; nothing else depends on them. */
  lemma HustleReddit(bs: seq<Behavior>, ids: seq<string>, headlineBonus: nat)
    ensures var with := Stats(bs, ids, headlineBonus, true);
      var without := Stats(bs, ids, headlineBonus, false);
      && with.HST == Min(MAX_STAT, without.HST + 15)
      && with.(HST := without.HST) == without
  {
    var sel := Selected(bs, ids);
    assert HustleRaw(sel, true) == HustleRaw(sel, false) + 15;
  }

  lemma {:induction false} SelectedNone(bs: seq<Behavior>)
    ensures Selected(bs, []) == []
  {
    if bs != [] {
      SelectedNone(bs[1..]);
    }
  }

  /** Listing an id twice, or in another order, changes no stat. */
  lemma StatsBySet(bs: seq<Behavior>, ids: seq<string>, ids2: seq<string>, headlineBonus: nat, redditFound: bool)
    requires forall x :: x in ids <==> x in ids2
    ensures Stats(bs, ids, headlineBonus, redditFound) == Stats(bs, ids2, headlineBonus, redditFound)
  {
    SelectedBySet(bs, ids, ids2);
  }

  /** With no behaviour chosen, cringe is 0 and the others come from the
      headline bonus and the Reddit posts alone. */
  lemma StatsOfNothing(bs: seq<Behavior>, headlineBonus: nat, redditFound: bool)
    ensures Stats(bs, [], headlineBonus, redditFound)
      == StatBlock(0, Min(MAX_STAT, 2 * headlineBonus), Min(MAX_STAT, 3 * headlineBonus), if redditFound then 15 else 0)
  {
    SelectedNone(bs);
  }

  /** Cringe grows with the best-scoring chosen row: without the cap it is
      3.5 points per point of that row, rounded half up, plus 4 per chosen
      row up to 20. */
  lemma CringeSpec(bs: seq<Behavior>, ids: seq<string>)
    ensures var sel := Selected(bs, ids);
      && 2 * CringeRaw(sel) - 2 * SelectionBonus(|sel|) - 7 * MaxPoints(sel) in {0, 1}
      && (|sel| > 5 ==> SelectionBonus(|sel|) == 20)
  {
    MaxPointsSpec(Selected(bs, ids));
  }

  // ---------------------------------------------------------------------------
  // calculateScore

  const REDDIT_BONUS: int := 25

  /** The points of the row with that id; 0 for an unknown id. */
  function BehaviorPoints(bs: seq<Behavior>, id: string): int {
    match Find(bs, id)
    case None => 0
    case Some(b) => b.points
  }

  /** The sum of the points of every listed id, repetitions included. */
  function BehaviorScore(bs: seq<Behavior>, ids: seq<string>): int {
    if ids == [] then 0 else BehaviorScore(bs, ids[..|ids| - 1]) + BehaviorPoints(bs, ids[|ids| - 1])
  }

  /** The score of two lists one after the other is the sum of their scores. */
  lemma {:induction false} BehaviorScoreAppend(bs: seq<Behavior>, a: seq<string>, b: seq<string>)
    ensures BehaviorScore(bs, a + b) == BehaviorScore(bs, a) + BehaviorScore(bs, b)
    decreases |b|
  {
    if b == [] {
      assert a + b == a;
    } else {
      assert (a + b)[..|a + b| - 1] == a + b[..|b| - 1];
      BehaviorScoreAppend(bs, a, b[..|b| - 1]);
    }
  }

  /** A repeated id counts again: listing everything twice doubles the sum. */
  lemma BehaviorScoreTwice(bs: seq<Behavior>, ids: seq<string>)
    ensures BehaviorScore(bs, ids + ids) == 2 * BehaviorScore(bs, ids)
  {
    BehaviorScoreAppend(bs, ids, ids);
  }

  /** Unknown ids count for nothing. */
  lemma {:induction false} BehaviorScoreUnknown(bs: seq<Behavior>, ids: seq<string>)
    requires forall k :: 0 <= k < |ids| ==> Find(bs, ids[k]).None?
    ensures BehaviorScore(bs, ids) == 0
  {
    if ids != [] {
      BehaviorScoreUnknown(bs, ids[..|ids| - 1]);
    }
  }

  /** The summing loop of `calculateScore`. */
  method SumBehaviorPoints(bs: seq<Behavior>, ids: seq<string>) returns (score: int)
    ensures score == BehaviorScore(bs, ids)
  {
    score := 0;
    var i := 0;
    while i < |ids|
      invariant 0 <= i <= |ids|
      invariant score == BehaviorScore(bs, ids[..i])
    {
      assert ids[..i + 1][..i] == ids[..i];
      var behavior := Find(bs, ids[i]);
      if behavior.Some? {
        score := score + behavior.value.points;
      }
      i := i + 1;
    }
    assert ids[..i] == ids;
  }

  datatype UserInput = UserInput(name: string, headline: string, behaviors: seq<string>)

  datatype RedditHit = RedditHit(title: string, url: string, score: int, created: int)

  datatype RedditResult = RedditResult(posts: seq<RedditHit>, searched: bool, error: Option<string>)

  datatype ScoreResult = ScoreResult(
    totalScore: int,
    tier: Tiers.TierInfo,
    lunaticClass: LunaticClass,
    classEmoji: string,
    stats: StatBlock,
    headlineAnalysis: Headlines.HeadlineAnalysis,
    redditResult: RedditResult,
    behaviorCount: nat)

  /** The headline analysis, skipped for a blank headline; `emojiCount` is
      the number of emoji matches in it. */
  function HeadlineOf(headline: string, emojiCount: nat): Headlines.HeadlineAnalysis {
    if Trim(headline) == [] then Headlines.EMPTY_ANALYSIS else Headlines.Analyze(headline, emojiCount)
  }

  /** `calculateScore`. */
  function CalculateScore(bs: seq<Behavior>, input: UserInput, emojiCount: nat, reddit: RedditResult): ScoreResult {
    ScoreWith(bs, input.behaviors, HeadlineOf(input.headline, emojiCount), reddit)
  }

  /** `calculateScore` once the headline has been analysed. */
  function ScoreWith(bs: seq<Behavior>, ids: seq<string>, analysis: Headlines.HeadlineAnalysis, reddit: RedditResult): ScoreResult {
    var redditBonus := if |reddit.posts| > 0 then REDDIT_BONUS else 0;
    var total := BehaviorScore(bs, ids) + analysis.totalBonus + redditBonus;
    var lunaticClass := AssignClass(bs, ids);
    ScoreResult(
      total,
      Tiers.TierForScore(total),
      lunaticClass,
      ClassEmoji(lunaticClass),
      Stats(bs, ids, analysis.totalBonus, |reddit.posts| > 0),
      analysis,
      reddit,
      |ids|)
  }

  /** A blank headline adds nothing and raises no flag; any other gets the
      full analysis. */
  lemma HeadlineOfSpec(headline: string, emojiCount: nat)
    ensures Trim(headline) == [] ==> HeadlineOf(headline, emojiCount).totalBonus == 0 && HeadlineOf(headline, emojiCount).flags == []
    ensures Trim(headline) != [] ==> HeadlineOf(headline, emojiCount) == Headlines.Analyze(headline, emojiCount)
    ensures (forall k :: 0 <= k < |headline| ==> IsSpace(headline[k])) ==> HeadlineOf(headline, emojiCount) == Headlines.EMPTY_ANALYSIS
  {
    TrimEmpty(headline);
  }

  /** The total is the behaviour points plus the headline bonus plus 25 when
      there are Reddit posts; the analysis is the headline's; the behaviour
      count counts repetitions and the Reddit result is passed on as it is. */
  lemma CalculateScoreTotal(bs: seq<Behavior>, input: UserInput, emojiCount: nat, reddit: RedditResult)
    ensures var r := CalculateScore(bs, input, emojiCount, reddit);
      && r.headlineAnalysis == HeadlineOf(input.headline, emojiCount)
      && r.totalScore == BehaviorScore(bs, input.behaviors) + r.headlineAnalysis.totalBonus
                         + (if |reddit.posts| > 0 then REDDIT_BONUS else 0)
      && r.redditResult == reddit
      && r.behaviorCount == |input.behaviors|
  {
  }

  /** The tier is the one for the total, Mythic exactly from 201 on; the class
      is `assignClass`'s and the emoji its own. */
  lemma ScoreTier(bs: seq<Behavior>, ids: seq<string>, analysis: Headlines.HeadlineAnalysis, reddit: RedditResult)
    ensures var r := ScoreWith(bs, ids, analysis, reddit);
      && r.tier == Tiers.TierForScore(r.totalScore)
      && (r.tier.name == Tiers.MythicLunatic <==> r.totalScore >= 201)
      && r.lunaticClass == AssignClass(bs, ids)
      && r.classEmoji == ClassEmoji(r.lunaticClass)
  {
    Tiers.MythicIffScore(ScoreWith(bs, ids, analysis, reddit).totalScore);
  }

  /** The stats are the ones for the chosen ids, the headline bonus and
      whether there are Reddit posts; each is in 0..99, and Reddit posts give
      at least 15 hustle. */
  lemma ScoreStats(bs: seq<Behavior>, ids: seq<string>, analysis: Headlines.HeadlineAnalysis, reddit: RedditResult)
    ensures var r := ScoreWith(bs, ids, analysis, reddit);
      && r.stats == Stats(bs, ids, analysis.totalBonus, |reddit.posts| > 0)
      && 0 <= r.stats.CRG <= MAX_STAT && 0 <= r.stats.ENG <= MAX_STAT
      && 0 <= r.stats.DEL <= MAX_STAT && 0 <= r.stats.HST <= MAX_STAT
      && (|reddit.posts| > 0 ==> r.stats.HST >= 15)
  {
    if |reddit.posts| > 0 {
      HustleReddit(bs, ids, analysis.totalBonus);
    }
  }

  /** Someone with no behaviour, a blank headline and no Reddit post scores 0:
      a Normie card of class Generic Professional. */
  lemma EmptyInputScore(bs: seq<Behavior>, name: string, headline: string, emojiCount: nat, reddit: RedditResult)
    requires Trim(headline) == [] && reddit.posts == []
    ensures var r := CalculateScore(bs, UserInput(name, headline, []), emojiCount, reddit);
      && r.totalScore == 0
      && r.tier.name == Tiers.Normie
      && r.lunaticClass == GenericProfessional
      && r.behaviorCount == 0
  {
    HeadlineOfSpec(headline, emojiCount);
    Tiers.TierForScoreRanges(0);
  }

  /** `calculateScore` with its loops. */
  method RunCalculateScore(bs: seq<Behavior>, input: UserInput, emojiCount: nat, reddit: RedditResult) returns (r: ScoreResult)
    ensures r == CalculateScore(bs, input, emojiCount, reddit)
  {
    var analysis := Headlines.EMPTY_ANALYSIS;
    if Trim(input.headline) != [] {
      analysis := Headlines.AnalyzeHeadline(input.headline, emojiCount);
    }
    r := ScoreOf(bs, input.behaviors, analysis, reddit);
  }

  /** The rest of `calculateScore`, once the headline has been analysed. */
  method ScoreOf(bs: seq<Behavior>, ids: seq<string>, analysis: Headlines.HeadlineAnalysis, reddit: RedditResult) returns (r: ScoreResult)
    ensures r == ScoreWith(bs, ids, analysis, reddit)
  {
    var behaviorScore := SumBehaviorPoints(bs, ids);
    var redditBonus := if |reddit.posts| > 0 then REDDIT_BONUS else 0;
    var totalScore := behaviorScore + analysis.totalBonus + redditBonus;
    var tier := Tiers.GetTierForScore(totalScore);
    var lunaticClass := RunAssignClass(bs, ids);
    var stats := Stats(bs, ids, analysis.totalBonus, |reddit.posts| > 0);
    r := ScoreResult(totalScore, tier, lunaticClass, ClassEmoji(lunaticClass), stats, analysis, reddit, |ids|);
  }
}
