/** The headline analysis behind a card's bonus: pipes, emoji, buzzwords and
    length each add to the bonus and each leave a flag. */
module Headlines {
  import opened Common
  import opened Text

  const BUZZWORDS: seq<string> := [
    "thought leader", "serial entrepreneur", "forbes", "tedx", "ted speaker", "keynote",
    "visionary", "disruptor", "change maker", "changemaker", "evangelist", "ninja",
    "rockstar", "guru", "maven", "wizard", "hacker", "unicorn", "alchemist", "storyteller",
    "top voice", "linkedin top", "award-winning", "award winning", "bestselling",
    "best-selling", "fortune 500", "inc 5000", "inc. 5000", "10x", "ex-google", "ex-meta",
    "ex-amazon", "ex-apple", "ex-microsoft", "ex-faang", "yc", "y combinator", "stanford",
    "harvard", "mit", "wharton"
  ]

  const PIPE_POINTS: nat := 3
  const EMOJI_POINTS: nat := 2
  const BUZZWORD_POINTS: nat := 5
  const LENGTH_THRESHOLD: nat := 100
  const LENGTH_STEP: nat := 20
  const MAX_LENGTH_BONUS: nat := 5

  datatype HeadlineAnalysis = HeadlineAnalysis(
    pipeCount: nat,
    emojiCount: nat,
    buzzwordCount: nat,
    lengthBonus: nat,
    totalBonus: nat,
    flags: seq<string>)

  /** The analysis of a blank headline: nothing counted, no flag. */
  const EMPTY_ANALYSIS: HeadlineAnalysis := HeadlineAnalysis(0, 0, 0, 0, 0, [])

  /** `len > 100 ? Math.min(Math.floor((len - 100) / 20), 5) : 0`. */
  function LengthBonus(len: nat): (b: nat)
    ensures b <= MAX_LENGTH_BONUS
    ensures len <= LENGTH_THRESHOLD ==> b == 0
  {
    if len > LENGTH_THRESHOLD then Min((len - LENGTH_THRESHOLD) / LENGTH_STEP, MAX_LENGTH_BONUS) else 0
  }

  /** The bonus first appears at 120 code units and reaches its cap at 200. */
  lemma LengthBonusSteps(len: nat)
    ensures LengthBonus(len) > 0 <==> len >= LENGTH_THRESHOLD + LENGTH_STEP
    ensures len >= LENGTH_THRESHOLD + MAX_LENGTH_BONUS * LENGTH_STEP ==> LengthBonus(len) == MAX_LENGTH_BONUS
    ensures LENGTH_THRESHOLD < len ==> LengthBonus(len) == Min((len - LENGTH_THRESHOLD) / LENGTH_STEP, MAX_LENGTH_BONUS)
  {
  }

  /** The buzzwords of `words` found in the lower-cased headline, in list order. */
  function Matched(lower: string, words: seq<string>): (r: seq<string>)
    ensures |r| <= |words|
  {
    if words == [] then []
    else
      var rest := Matched(lower, words[..|words| - 1]);
      if Contains(lower, words[|words| - 1]) then rest + [words[|words| - 1]] else rest
  }

  /** The matched words keep the list's order and holds exactly the words of
      the list that occur in the headline. */
  lemma {:induction false} MatchedSpec(lower: string, words: seq<string>)
    ensures IsSubsequence(Matched(lower, words), words)
    ensures forall w :: w in Matched(lower, words) <==> w in words && Contains(lower, w)
  {
    if words != [] {
      var init := words[..|words| - 1];
      var last := words[|words| - 1];
      MatchedSpec(lower, init);
      assert words == init + [last];
      SubsequenceSnoc(Matched(lower, init), init, last, Contains(lower, last));
    }
  }

  /** Extending both sides of a subsequence with the same element, or only
      the larger one, keeps it a subsequence. */
  lemma {:induction false} SubsequenceSnoc(sub: seq<string>, s: seq<string>, x: string, both: bool)
    requires IsSubsequence(sub, s)
    ensures IsSubsequence(if both then sub + [x] else sub, s + [x])
    decreases |s|
  {
    var sub' := if both then sub + [x] else sub;
    if sub == [] {
      if both {
        assert sub' == [x];
        SubsequenceLast(x, s);
      }
    } else {
      assert s != [];
      assert (s + [x])[1..] == s[1..] + [x];
      assert sub'[0] == sub[0];
      if sub[0] == s[0] {
        assert sub'[1..] == (if both then sub[1..] + [x] else sub[1..]);
        SubsequenceSnoc(sub[1..], s[1..], x, both);
      } else {
        SubsequenceSnoc(sub, s[1..], x, both);
      }
    }
  }

  lemma {:induction false} SubsequenceLast(x: string, s: seq<string>)
    ensures IsSubsequence([x], s + [x])
    decreases |s|
  {
    if s != [] {
      assert (s + [x])[1..] == s[1..] + [x];
      if s[0] != x {
        SubsequenceLast(x, s[1..]);
      }
    }
  }

  /** The flag of the pipe count: the plural from two on. */
  function PipeFlag(n: nat): string {
    if n >= 3 then ShowNat(n) + " pipes detected"
    else ShowNat(n) + " pipe" + (if n > 1 then "s" else "") + " detected"
  }

  function EmojiFlag(n: nat): string {
    ShowNat(n) + " emoji" + (if n > 1 then "s" else "") + " in headline"
  }

  function BuzzwordFlag(w: string): string {
    "\"" + w + "\" detected"
  }

  function BuzzwordFlags(ws: seq<string>): (r: seq<string>)
    ensures |r| == |ws|
    ensures forall i :: 0 <= i < |ws| ==> r[i] == BuzzwordFlag(ws[i])
  {
    if ws == [] then [] else BuzzwordFlags(ws[..|ws| - 1]) + [BuzzwordFlag(ws[|ws| - 1])]
  }

  function LengthFlag(len: nat): string {
    ShowNat(len) + " char headline"
  }

  /** `analyzeHeadline` against the word list `words`. */
  function AnalyzeWith(headline: string, emojiCount: nat, words: seq<string>): HeadlineAnalysis {
    var pipes := CountChar(headline, '|');
    var found := Matched(ToLower(headline), words);
    var len := Utf16Length(headline);
    var bonus := LengthBonus(len);
    HeadlineAnalysis(
      pipes, emojiCount, |found|, bonus,
      pipes * PIPE_POINTS + emojiCount * EMOJI_POINTS + |found| * BUZZWORD_POINTS + bonus,
      (if pipes > 0 then [PipeFlag(pipes)] else [])
      + (if emojiCount > 0 then [EmojiFlag(emojiCount)] else [])
      + BuzzwordFlags(found)
      + (if bonus > 0 then [LengthFlag(len)] else []))
  }

  /** `analyzeHeadline`, with the number of emoji matches given (the emoji
      regular expression is not modelled). */
  function Analyze(headline: string, emojiCount: nat): HeadlineAnalysis {
    AnalyzeWith(headline, emojiCount, BUZZWORDS)
  }

  lemma {:induction false} AnalyzeWithSpec(headline: string, emojiCount: nat, words: seq<string>)
    ensures var a := AnalyzeWith(headline, emojiCount, words);
      && a.pipeCount == multiset(headline)['|']
      && a.emojiCount == emojiCount
      && a.buzzwordCount <= |words|
      && a.lengthBonus <= MAX_LENGTH_BONUS
      && (Utf16Length(headline) <= LENGTH_THRESHOLD ==> a.lengthBonus == 0)
      && a.totalBonus == 3 * a.pipeCount + 2 * a.emojiCount + 5 * a.buzzwordCount + a.lengthBonus
      && |a.flags| == (if a.pipeCount > 0 then 1 else 0) + (if emojiCount > 0 then 1 else 0)
                      + a.buzzwordCount + (if a.lengthBonus > 0 then 1 else 0)
    ensures var found := Matched(ToLower(headline), words);
      && AnalyzeWith(headline, emojiCount, words).buzzwordCount == |found|
      && IsSubsequence(found, words)
      && forall w :: w in found <==> w in words && Contains(ToLower(headline), w)
  {
    CountCharMultiset(headline, '|');
    MatchedSpec(ToLower(headline), words);
  }

  /** What the analysis counts: the pipes of the headline, the buzzwords that
      occur in it once lower-cased (each at most once, in list order), a length
      bonus in [0, 5]; the total is 3 per pipe, 2 per emoji, 5 per buzzword
      plus the length bonus; and there is one flag per non-zero counter and
      one per buzzword. */
  lemma AnalyzeSpec(headline: string, emojiCount: nat)
    ensures var a := Analyze(headline, emojiCount);
      && a.pipeCount == multiset(headline)['|']
      && a.emojiCount == emojiCount
      && a.buzzwordCount <= |BUZZWORDS|
      && a.lengthBonus <= MAX_LENGTH_BONUS
      && (Utf16Length(headline) <= LENGTH_THRESHOLD ==> a.lengthBonus == 0)
      && a.totalBonus == 3 * a.pipeCount + 2 * a.emojiCount + 5 * a.buzzwordCount + a.lengthBonus
      && |a.flags| == (if a.pipeCount > 0 then 1 else 0) + (if emojiCount > 0 then 1 else 0)
                      + a.buzzwordCount + (if a.lengthBonus > 0 then 1 else 0)
    ensures var words := Matched(ToLower(headline), BUZZWORDS);
      && Analyze(headline, emojiCount).buzzwordCount == |words|
      && IsSubsequence(words, BUZZWORDS)
      && forall w :: w in words <==> w in BUZZWORDS && Contains(ToLower(headline), w)
  {
    AnalyzeWithSpec(headline, emojiCount, BUZZWORDS);
  }

  /** A headline with no pipe, no emoji, no buzzword and at most 100 code
      units earns nothing and raises no flag. */
  lemma PlainHeadline(headline: string)
    requires '|' !in headline
    requires forall w :: w in BUZZWORDS ==> !Contains(ToLower(headline), w)
    requires Utf16Length(headline) <= LENGTH_THRESHOLD
    ensures Analyze(headline, 0) == EMPTY_ANALYSIS
  {
    PlainWith(headline, BUZZWORDS);
  }

  lemma PlainWith(headline: string, words: seq<string>)
    requires '|' !in headline
    requires forall w :: w in words ==> !Contains(ToLower(headline), w)
    requires Utf16Length(headline) <= LENGTH_THRESHOLD
    ensures AnalyzeWith(headline, 0, words) == EMPTY_ANALYSIS
  {
    AnalyzeWithSpec(headline, 0, words);
    MatchedNone(ToLower(headline), words);
  }

  lemma {:induction false} MatchedNone(lower: string, words: seq<string>)
    requires forall w :: w in words ==> !Contains(lower, w)
    ensures Matched(lower, words) == []
  {
    if words != [] {
      assert words[|words| - 1] in words;
      MatchedNone(lower, words[..|words| - 1]);
    }
  }

  /** The buzzword loop: each word of `words` found in `lower` is counted
      and flagged, in list order. */
  method FindBuzzwords(lower: string, words: seq<string>) returns (count: nat, flags: seq<string>)
    ensures count == |Matched(lower, words)|
    ensures flags == BuzzwordFlags(Matched(lower, words))
  {
    count, flags := 0, [];
    var i := 0;
    while i < |words|
      invariant i <= |words|
      invariant count == |Matched(lower, words[..i])|
      invariant flags == BuzzwordFlags(Matched(lower, words[..i]))
    {
      assert words[..i + 1][..i] == words[..i];
      if Contains(lower, words[i]) {
        count := count + 1;
        flags := flags + [BuzzwordFlag(words[i])];
      }
      i := i + 1;
    }
    assert words[..i] == words;
  }

  /** The analysis as the source runs it: the flags array grows as each rule
      fires. */
  method AnalyzeHeadline(headline: string, emojiCount: nat) returns (a: HeadlineAnalysis)
    ensures a == Analyze(headline, emojiCount)
  {
    a := AnalyzeHeadlineWith(headline, emojiCount, BUZZWORDS);
  }

  method AnalyzeHeadlineWith(headline: string, emojiCount: nat, words: seq<string>) returns (a: HeadlineAnalysis)
    ensures a == AnalyzeWith(headline, emojiCount, words)
  {
    var lower := ToLower(headline);
    var pipeCount := CountChar(headline, '|');
    var buzzwordCount, buzzFlags := FindBuzzwords(lower, words);
    var len := Utf16Length(headline);
    var lengthBonus := LengthBonus(len);
    var flags := PushFlags(pipeCount, emojiCount, buzzFlags, len, lengthBonus);
    var totalBonus := pipeCount * PIPE_POINTS + emojiCount * EMOJI_POINTS + buzzwordCount * BUZZWORD_POINTS + lengthBonus;
    a := HeadlineAnalysis(pipeCount, emojiCount, buzzwordCount, lengthBonus, totalBonus, flags);
  }

  /** The `flags.push` calls of `analyzeHeadline`, in order: the pipe flag,
      the emoji flag, the buzzword flags and the length flag, each only when
      its count or bonus is positive. */
  method PushFlags(pipeCount: nat, emojiCount: nat, buzzFlags: seq<string>, len: nat, lengthBonus: nat)
      returns (flags: seq<string>)
    ensures flags ==
      (if pipeCount > 0 then [PipeFlag(pipeCount)] else [])
      + (if emojiCount > 0 then [EmojiFlag(emojiCount)] else [])
      + buzzFlags
      + (if lengthBonus > 0 then [LengthFlag(len)] else [])
  {
    flags := [];
    if pipeCount > 0 {
      flags := flags + [PipeFlag(pipeCount)];
    }
    if emojiCount > 0 {
      flags := flags + [EmojiFlag(emojiCount)];
    }
    flags := flags + buzzFlags;
    if lengthBonus > 0 {
      flags := flags + [LengthFlag(len)];
    }
  }
}
