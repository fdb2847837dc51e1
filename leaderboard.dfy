/** The leaderboard edge function's request handling: the `limit` and `sort`
    query parameters are normalised before the `get_leaderboard` RPC is
    called, and a failed call answers with an empty leaderboard. */
module Leaderboard {
  import opened Common
  import opened Text

  const DEFAULT_LIMIT: int := 50
  const MIN_LIMIT: int := 1
  const MAX_LIMIT: int := 100
  const DEFAULT_SORT: string := "peak_score"
  const VALID_SORTS: seq<string> := ["peak_score", "frequency", "recent"]

  // ---------------------------------------------------------------------------
  // parseInt(s, 10)

  /** The leading run of decimal digits of `s`. */
  function DigitPrefix(s: string): (r: string)
    ensures r <= s
    ensures forall k :: 0 <= k < |r| ==> IsDigit(r[k])
    ensures |r| == |s| || !IsDigit(s[|r|])
  {
    if s != [] && IsDigit(s[0]) then [s[0]] + DigitPrefix(s[1..]) else []
  }

  /** `parseInt(s, 10)`: leading white space is skipped, then an optional sign,
      then the longest run of digits; None stands for `NaN` (no digit at all).
      With the radix given there is no `0x` prefix. */
  function ParseIntJs(s: string): (r: Option<int>)
    ensures r.None? <==> DigitPrefix(SignFree(TrimStart(s))) == []
  {
    var u := TrimStart(s);
    var rest := SignFree(u);
    var ds := DigitPrefix(rest);
    if ds == [] then None
    else
      var v: int := DigitsValue(ds);
      if u[0] == '-' then Some(-v) else Some(v)
  }

  /** `s` without its leading sign character, if any. */
  function SignFree(s: string): (r: string)
    ensures r == s || (s != [] && (s[0] == '-' || s[0] == '+') && r == s[1..])
  {
    if s != [] && (s[0] == '-' || s[0] == '+') then s[1..] else s
  }

  lemma {:induction false} DigitPrefixAll(ds: string)
    requires forall k :: 0 <= k < |ds| ==> IsDigit(ds[k])
    ensures DigitPrefix(ds) == ds
  {
    if ds != [] {
      DigitPrefixAll(ds[1..]);
    }
  }

  /** A string that does not start with white space or a sign is read from
      its first character on. */
  lemma ParseUnsigned(s: string)
    requires s != [] && !IsSpace(s[0]) && s[0] != '-' && s[0] != '+'
    ensures ParseIntJs(s) == if DigitPrefix(s) == [] then None else Some(DigitsValue(DigitPrefix(s)) as int)
  {
    assert TrimStart(s) == s;
  }

  /** Reading back what `ShowNat` writes gives the number. */
  lemma ParseShowNat(n: nat)
    ensures ParseIntJs(ShowNat(n)) == Some(n)
  {
    var s := ShowNat(n);
    ShowNatValue(n);
    DigitPrefixAll(s);
    ParseUnsigned(s);
  }

  /** Reading it back after a minus sign gives the negated number. */
  lemma ParseNegShowNat(n: nat)
    ensures ParseIntJs("-" + ShowNat(n)) == Some(-(n as int))
  {
    var s := ShowNat(n);
    ShowNatValue(n);
    DigitPrefixAll(s);
    var m := "-" + s;
    assert m[0] == '-' && !IsSpace(m[0]);
    assert TrimStart(m) == m;
    assert SignFree(m) == s;
  }

  /** Parsing ignores whatever follows the digits: `parseInt("12abc", 10)` is 12. */
  lemma ParseIgnoresTail(n: nat, tail: string)
    requires tail == [] || !IsDigit(tail[0])
    ensures ParseIntJs(ShowNat(n) + tail) == Some(n)
  {
    var s := ShowNat(n);
    ShowNatValue(n);
    DigitPrefixAppend(s, tail);
    assert (s + tail)[0] == s[0];
    ParseUnsigned(s + tail);
  }

  lemma {:induction false} DigitPrefixAppend(ds: string, tail: string)
    requires forall k :: 0 <= k < |ds| ==> IsDigit(ds[k])
    requires tail == [] || !IsDigit(tail[0])
    ensures DigitPrefix(ds + tail) == ds
  {
    if ds != [] {
      assert (ds + tail)[1..] == ds[1..] + tail;
      DigitPrefixAppend(ds[1..], tail);
    } else {
      assert ds + tail == tail;
    }
  }

  // ---------------------------------------------------------------------------
  // The two parameters

  /** `Math.min(Math.max(parseInt(limitParam || '50', 10) || 50, 1), 100)`:
      a missing or empty parameter reads as "50", and `NaN` and 0 (falsy)
      become 50. */
  function EffectiveLimit(limitParam: Option<string>): (r: int)
    ensures MIN_LIMIT <= r <= MAX_LIMIT
  {
    Min(Max(LimitValue(if Truthy(limitParam) then limitParam.value else DEFAULT_LIMIT_PARAM), MIN_LIMIT), MAX_LIMIT)
  }

  const DEFAULT_LIMIT_PARAM: string := "50"

  /** `parseInt(raw, 10) || 50`. */
  function LimitValue(raw: string): int {
    var parsed := ParseIntJs(raw);
    if parsed.None? || parsed.value == 0 then DEFAULT_LIMIT else parsed.value
  }

  /** The limit is the parsed value clamped to [1, 100]; a missing, empty,
      non-numeric or zero value gives 50, a negative one 1, one above 100 gives
      100, and any value in range is used as it is. */
  lemma EffectiveLimitCases(limitParam: Option<string>)
    ensures !Truthy(limitParam) ==> EffectiveLimit(limitParam) == DEFAULT_LIMIT
    ensures Truthy(limitParam) ==>
      var p := ParseIntJs(limitParam.value);
      && (p.None? || p == Some(0) ==> EffectiveLimit(limitParam) == DEFAULT_LIMIT)
      && (p.Some? && p.value < 0 ==> EffectiveLimit(limitParam) == MIN_LIMIT)
      && (p.Some? && p.value > MAX_LIMIT ==> EffectiveLimit(limitParam) == MAX_LIMIT)
      && (p.Some? && MIN_LIMIT <= p.value <= MAX_LIMIT ==> EffectiveLimit(limitParam) == p.value)
  {
    if !Truthy(limitParam) {
      DefaultLimitValue();
    } else {
      ClampParsed(limitParam.value);
    }
  }

  /** The default parameter "50" reads as 50. */
  lemma DefaultLimitValue()
    ensures LimitValue(DEFAULT_LIMIT_PARAM) == DEFAULT_LIMIT
  {
    var s := DEFAULT_LIMIT_PARAM;
    assert s == ['5', '0'];
    assert s[..1] == ['5'] && ['5'][..0] == [];
    assert DigitsValue(s) == 50;
    DigitPrefixAll(s);
    ParseUnsigned(s);
  }

  lemma ClampParsed(raw: string)
    ensures var p := ParseIntJs(raw);
      var r := Min(Max(LimitValue(raw), MIN_LIMIT), MAX_LIMIT);
      && (p.None? || p == Some(0) ==> r == DEFAULT_LIMIT)
      && (p.Some? && p.value < 0 ==> r == MIN_LIMIT)
      && (p.Some? && p.value > MAX_LIMIT ==> r == MAX_LIMIT)
      && (p.Some? && MIN_LIMIT <= p.value <= MAX_LIMIT ==> r == p.value)
  {
  }

  /** A limit written in decimal is taken as it is when in range and clamped
      otherwise; a negative one becomes 1. */
  lemma EffectiveLimitOfNumber(n: nat)
    ensures EffectiveLimit(Some(ShowNat(n))) == if n == 0 then DEFAULT_LIMIT else Min(n, MAX_LIMIT)
    ensures n > 0 ==> EffectiveLimit(Some("-" + ShowNat(n))) == MIN_LIMIT
  {
    ParseShowNat(n);
    ParseNegShowNat(n);
  }

  /** `validSorts.includes(sort) ? sort : 'peak_score'` with `sort` read as
      `get('sort') || 'peak_score'`. */
  function SortBy(sort: Option<string>): (r: string)
    ensures r in VALID_SORTS
    ensures Truthy(sort) && sort.value in VALID_SORTS ==> r == sort.value
    ensures !(Truthy(sort) && sort.value in VALID_SORTS) ==> r == DEFAULT_SORT
  {
    var s := if Truthy(sort) then sort.value else DEFAULT_SORT;
    if s in VALID_SORTS then s else DEFAULT_SORT
  }

  // ---------------------------------------------------------------------------
  // The handler

  /** A row the RPC returns. */
  datatype Entry = Entry(
    name: string,
    postCount: int,
    peakScore: int,
    peakPostTitle: string,
    peakPostUrl: string,
    latestPostDate: int)

  datatype Request = Request(httpMethod: string, sort: Option<string>, limit: Option<string>)

  /** What `get_leaderboard` gives back: its rows (possibly null), an error
      object, or a thrown error. */
  datatype RpcReply = RpcOk(data: Option<seq<Entry>>) | RpcError(message: string) | RpcThrew(message: string)

  /** What the count query gives back: a count (possibly null), or a thrown error. */
  datatype CountReply = CountOk(count: Option<nat>) | CountThrew(message: string)

  /** The replies: the CORS pre-flight, 405, and the JSON leaderboard body. */
  datatype Response =
    | NoContent
    | MethodNotAllowed
    | Board(entries: seq<Entry>, totalPeople: nat, error: Option<string>)

  function Status(r: Response): int {
    match r
    case NoContent => 204
    case MethodNotAllowed => 405
    case Board(_, _, _) => 200
  }

  /** The handler; `rpc` is `get_leaderboard` called with the normalised
      sort and page size. */
  function Handle(req: Request, rpc: (string, int) -> RpcReply, count: CountReply): Response {
    if req.httpMethod == "OPTIONS" then NoContent
    else if req.httpMethod != "GET" then MethodNotAllowed
    else
      match rpc(SortBy(req.sort), EffectiveLimit(req.limit))
      case RpcError(message) => Board([], 0, Some(message))
      case RpcThrew(message) => Board([], 0, Some(message))
      case RpcOk(data) =>
        match count
        case CountThrew(message) => Board([], 0, Some(message))
        case CountOk(n) => Board(data.GetOr([]), n.GetOr(0), None)
  }

  /** Only GET reaches the RPC, and always with a valid sort and a page size
      in [1, 100]; any other method but OPTIONS gets 405; a failure of either
      query answers with no entries, no people and an error, and a success
      with the RPC's rows and the count, or none of either when they are null. */
  lemma HandleSpec(req: Request, rpc: (string, int) -> RpcReply, count: CountReply)
    ensures Status(Handle(req, rpc, count)) == 405 <==> req.httpMethod != "OPTIONS" && req.httpMethod != "GET"
    ensures Status(Handle(req, rpc, count)) == 204 <==> req.httpMethod == "OPTIONS"
    ensures req.httpMethod == "GET" ==>
      var reply := rpc(SortBy(req.sort), EffectiveLimit(req.limit));
      var r := Handle(req, rpc, count);
      && r.Board?
      && SortBy(req.sort) in VALID_SORTS && MIN_LIMIT <= EffectiveLimit(req.limit) <= MAX_LIMIT
      && (reply.RpcError? || reply.RpcThrew? || count.CountThrew? ==>
            r.entries == [] && r.totalPeople == 0 && r.error.Some?)
      && (reply.RpcOk? && count.CountOk? ==>
            r.entries == reply.data.GetOr([]) && r.totalPeople == count.count.GetOr(0) && r.error.None?)
  {
  }
}
