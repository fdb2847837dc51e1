/** The card tiers: a constant table of six tiers by score, the lookup of the
    tier for a score, the star string and the Mythic test. */
module Tiers {
  import opened Common

  datatype TierName = Normie | AspiringLunatic | CertifiedLunatic | MegaLunatic | UltraLunatic | MythicLunatic

  datatype Colors = Colors(border: string, bg: string, accent: string, text: string, statBar: string)

  datatype TierInfo = TierInfo(name: TierName, rarity: string, minScore: int, maxScore: int, stars: int, colors: Colors)

  const TIERS: seq<TierInfo> := [
    TierInfo(Normie, "Common", 0, 25, 1, Colors("#6b7280", "#f9fafb", "#9ca3af", "#374151", "#9ca3af")),
    TierInfo(AspiringLunatic, "Uncommon", 26, 60, 2, Colors("#22c55e", "#f0fdf4", "#4ade80", "#166534", "#22c55e")),
    TierInfo(CertifiedLunatic, "Rare", 61, 100, 3, Colors("#3b82f6", "#eff6ff", "#60a5fa", "#1e40af", "#3b82f6")),
    TierInfo(MegaLunatic, "Epic", 101, 150, 4, Colors("#a855f7", "#faf5ff", "#c084fc", "#6b21a8", "#a855f7")),
    TierInfo(UltraLunatic, "Legendary", 151, 200, 5, Colors("#f59e0b", "#fffbeb", "#fbbf24", "#92400e", "#f59e0b")),
    TierInfo(MythicLunatic, "Mythic", 201, 999, 5, Colors("#ef4444", "#0f0f0f", "#f87171", "#fef2f2", "#ef4444"))
  ]

  /** The table is ordered: each tier starts right after the previous one
      ends, so `minScore` strictly increases; `stars` never decreases and stays
      within 1..5; every tier's range is non-empty. */
  lemma TableShape()
    ensures |TIERS| == 6
    ensures forall i :: 0 <= i < |TIERS| ==> TIERS[i].minScore <= TIERS[i].maxScore
    ensures forall i :: 0 <= i < |TIERS| - 1 ==> TIERS[i + 1].minScore == TIERS[i].maxScore + 1
    ensures forall i, j :: 0 <= i < j < |TIERS| ==> TIERS[i].minScore < TIERS[j].minScore
    ensures forall i, j :: 0 <= i < j < |TIERS| ==> TIERS[i].stars <= TIERS[j].stars
    ensures forall i :: 0 <= i < |TIERS| ==> 1 <= TIERS[i].stars <= 5
  {
  }

  /** The position from `i` down to 0 of the last tier whose `minScore` is at
      most `score`; 0 when there is none. */
  function TierIndexFrom(score: int, i: nat): (r: nat)
    requires i < |TIERS|
    ensures r <= i
    ensures TIERS[r].minScore <= score || r == 0
    ensures forall j :: r < j <= i ==> TIERS[j].minScore > score
  {
    if TIERS[i].minScore <= score then i
    else if i == 0 then 0
    else TierIndexFrom(score, i - 1)
  }

  /** `getTierForScore`: the last tier whose `minScore` is at most the score,
      the first tier when there is none. */
  function TierForScore(score: int): (t: TierInfo)
    ensures t in TIERS
  {
    TIERS[TierIndexFrom(score, |TIERS| - 1)]
  }

  /** A score in a tier's range gets that tier; a score below 0 gets Normie;
      every score of 201 or more, however large, gets Mythic Lunatic; and the
      tier's range holds every score from 0 to 999. */
  lemma TierForScoreRanges(score: int)
    ensures forall i :: 0 <= i < |TIERS| && TIERS[i].minScore <= score <= TIERS[i].maxScore ==> TierForScore(score) == TIERS[i]
    ensures score < 0 ==> TierForScore(score).name == Normie
    ensures score >= 201 ==> TierForScore(score).name == MythicLunatic
    ensures 0 <= score <= 999 ==> TierForScore(score).minScore <= score <= TierForScore(score).maxScore
  {
    TableShape();
    var r := TierIndexFrom(score, |TIERS| - 1);
    if score >= 0 {
      assert TIERS[r].minScore <= score;
      if r < |TIERS| - 1 {
        assert TIERS[r + 1].minScore > score;
      }
    }
  }

  /** `for (let i = tiers.length - 1; i >= 0; i--) if (score >= tiers[i].minScore) return tiers[i]`. */
  method GetTierForScore(score: int) returns (t: TierInfo)
    ensures t == TierForScore(score)
  {
    var i := |TIERS| - 1;
    while i >= 0
      invariant -1 <= i < |TIERS|
      invariant forall j :: i < j < |TIERS| ==> TIERS[j].minScore > score
    {
      if score >= TIERS[i].minScore {
        return TIERS[i];
      }
      i := i - 1;
    }
    t := TIERS[0];
  }

  /** `'★'.repeat(stars) + '☆'.repeat(5 - stars)`; `repeat` throws a
      RangeError for a negative count, so a count outside 0..5 gives None. */
  function StarDisplay(stars: int): (r: Option<string>)
    ensures r.Some? <==> 0 <= stars <= 5
  {
    if 0 <= stars <= 5 then Some(Stars('★', stars) + Stars('☆', 5 - stars)) else None
  }

  /** `c.repeat(n)`. */
  function Stars(c: char, n: nat): (r: string)
    ensures |r| == n
    ensures forall k :: 0 <= k < n ==> r[k] == c
  {
    if n == 0 then "" else [c] + Stars(c, n - 1)
  }

  /** Within range the display is five characters: `stars` full stars and
      then empty ones. */
  lemma StarDisplaySpec(stars: int)
    requires 0 <= stars <= 5
    ensures var s := StarDisplay(stars).value;
      && |s| == 5
      && (forall k :: 0 <= k < stars ==> s[k] == '★')
      && (forall k :: stars <= k < 5 ==> s[k] == '☆')
  {
  }

  /** Every tier's own star count displays. */
  lemma TierStarsDisplay(score: int)
    ensures StarDisplay(TierForScore(score).stars).Some?
  {
    TableShape();
  }

  /** `tierName === 'Mythic Lunatic'`. */
  predicate IsMythic(name: TierName) {
    name == MythicLunatic
  }

  /** A score gets a Mythic card exactly when it is 201 or more. */
  lemma MythicIffScore(score: int)
    ensures IsMythic(TierForScore(score).name) <==> score >= 201
  {
    TierForScoreRanges(score);
    TableShape();
    var r := TierIndexFrom(score, |TIERS| - 1);
    if score < 201 {
      assert r != |TIERS| - 1;
    }
  }
}
