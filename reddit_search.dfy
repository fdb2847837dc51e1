/** The identity matcher behind the search endpoint: validate and sanitise the
    queried name, split it into a first and a last token, keep the stored
    posts whose extracted name has the same last token and a compatible first
    token, and fall back to a title search when nothing matched.
    The two database queries are given as functions from the search term to
    the rows the database returns, already ordered by score, descending. */
module RedditSearch {
  import opened Common
  import opened Text

  /** At most this many candidate rows are fetched by extracted name. */
  const CANDIDATE_LIMIT: nat := 50
  /** At most this many posts are returned. */
  const RESULT_LIMIT: nat := 10
  const MIN_NAME_LENGTH: nat := 2
  const MAX_NAME_LENGTH: nat := 100

  // ---------------------------------------------------------------------------
  // First-name compatibility

  /** Two first names are compatible when they are equal ignoring case, or when
      the shorter one is a prefix of the longer one and the longer one has at
      least three more characters. Lengths are JavaScript lengths, in UTF-16
      code units. */
  function FirstNameMatches(a: string, b: string): bool {
    var la := ToLower(a);
    var lb := ToLower(b);
    if la == lb then true
    else
      var shorter := if Utf16Length(la) <= Utf16Length(lb) then la else lb;
      var longer := if Utf16Length(la) <= Utf16Length(lb) then lb else la;
      StartsWith(longer, shorter) && Utf16Length(longer) - Utf16Length(shorter) >= 3
  }

  /** The rule in both directions: equal ignoring case, or one lower-cased name
      is a proper prefix of the other that is at least three code units shorter. */
  lemma FirstNameMatchesIff(a: string, b: string)
    ensures FirstNameMatches(a, b) <==>
      (ToLower(a) == ToLower(b)
       || (ToLower(a) <= ToLower(b) && Utf16Length(ToLower(a)) + 3 <= Utf16Length(ToLower(b)))
       || (ToLower(b) <= ToLower(a) && Utf16Length(ToLower(b)) + 3 <= Utf16Length(ToLower(a))))
  {
    var la, lb := ToLower(a), ToLower(b);
    if la <= lb {
      Utf16LengthPrefix(la, lb);
    }
    if lb <= la {
      Utf16LengthPrefix(lb, la);
    }
  }

  /** The names are ordered by length before they are compared, so the
      argument order does not matter. */
  lemma FirstNameMatchesSymmetric(a: string, b: string)
    ensures FirstNameMatches(a, b) == FirstNameMatches(b, a)
  {
    FirstNameMatchesIff(a, b);
    FirstNameMatchesIff(b, a);
  }

  /** Two different names of the same length never match, and neither do two
      names of which neither is a prefix of the other. */
  lemma FirstNameMatchesRejects(a: string, b: string)
    ensures Utf16Length(a) == Utf16Length(b) && ToLower(a) != ToLower(b) ==> !FirstNameMatches(a, b)
    ensures !(ToLower(a) <= ToLower(b)) && !(ToLower(b) <= ToLower(a)) ==> !FirstNameMatches(a, b)
  {
    Utf16LengthLower(a);
    Utf16LengthLower(b);
  }

  /** The cases the matcher's comments give: case is ignored, a short form three
      or more characters shorter matches, a one-character extension does not. */
  lemma FirstNameExamples()
    ensures FirstNameMatches("ken", "KEN")
    ensures FirstNameMatches("Chris", "Christopher")
    ensures !FirstNameMatches("Ken", "Kent")
  {
    assert ToLower("ken") == ToLower("KEN");
    ChrisExample();
    KentExample();
  }

  lemma ChrisExample()
    ensures FirstNameMatches("Chris", "Christopher")
  {
    var a, b := "Chris", "Christopher";
    assert b[..5] == a;
    ToLowerSlice(b, 0, 5);
    LowerBmpLength(a);
    LowerBmpLength(b);
    FirstNameMatchesIff(a, b);
  }

  /** A name inside the Basic Multilingual Plane keeps one code unit per
      character once lower-cased. */
  lemma LowerBmpLength(s: string)
    requires forall k :: 0 <= k < |s| ==> s[k] as int <= 0xFFFF
    ensures Utf16Length(ToLower(s)) == |s|
  {
    Utf16LengthLower(s);
    Utf16LengthBmp(s);
  }

  lemma KentExample()
    ensures !FirstNameMatches("Ken", "Kent")
  {
    var la, lb := ToLower("Ken"), ToLower("Kent");
    assert la == "ken" && lb == "kent";
    Utf16LengthBmp(la);
    Utf16LengthBmp(lb);
  }

  /** Two emoji count four code units, so they make up the three-unit
      difference on their own. */
  lemma FirstNameEmojiExample()
    ensures FirstNameMatches("Ken", "Ken\U{1F600}\U{1F600}")
  {
    var e := "\U{1F600}\U{1F600}";
    assert ToLower("Ken") == "ken";
    assert ToLower("Ken" + e) == "ken" + e;
    assert "Ken\U{1F600}\U{1F600}" == "Ken" + e;
    assert Utf16Length(e) == 4 by {
      assert e[0] as int > 0xFFFF && e[1..] == "\U{1F600}";
      assert e[1..][1..] == [];
    }
    Utf16LengthAppend("ken", e);
    assert "ken" <= "ken" + e;
  }

  /** An empty first token (a query that starts with a character the sanitiser
      removes, such as "!! Bob") is compatible with an empty first name and
      with every first name of three or more code units. */
  lemma EmptyFirstTokenMatches(b: string)
    ensures FirstNameMatches("", b) <==> (b == "" || Utf16Length(b) >= 3)
  {
    assert ToLower("") == "";
    assert "" <= ToLower(b);
    Utf16LengthLower(b);
    assert |ToLower(b)| == |b|;
  }

  // ---------------------------------------------------------------------------
  // Validating, sanitising and splitting the query

  /** The `name` parameter is present and non-empty, and its trimmed length,
      in UTF-16 code units, lies in [2, 100]. */
  predicate ValidName(name: Option<string>) {
    name.Some? && name.value != "" && MIN_NAME_LENGTH <= Utf16Length(Trim(name.value)) <= MAX_NAME_LENGTH
  }

  /** A character the sanitiser keeps: `\w`, white space, `.` or `-`. */
  predicate Kept(c: char) {
    IsWordChar(c) || IsSpace(c) || c == '.' || c == '-'
  }

  /** `s.replace(/[^\w\s.-]/g, '')`: every other character removed, the order kept. */
  function Sanitize(s: string): (r: string)
    ensures |r| <= |s|
  {
    if s == [] then []
    else if Kept(s[0]) then [s[0]] + Sanitize(s[1..])
    else Sanitize(s[1..])
  }

  /** The sanitised string holds only kept characters, is a subsequence of the
      input, keeps every kept character, and sanitising it again changes nothing. */
  lemma {:induction false} SanitizeProperties(s: string)
    ensures forall k :: 0 <= k < |Sanitize(s)| ==> Kept(Sanitize(s)[k])
    ensures IsSubsequence(Sanitize(s), s)
    ensures (forall k :: 0 <= k < |s| ==> Kept(s[k])) ==> Sanitize(s) == s
    ensures Sanitize(Sanitize(s)) == Sanitize(s)
  {
    if s != [] {
      SanitizeProperties(s[1..]);
      var t := Sanitize(s[1..]);
      if Kept(s[0]) {
        assert ([s[0]] + t)[1..] == t;
        assert Sanitize([s[0]] + t) == [s[0]] + Sanitize(t);
      } else {
        if IsSubsequence(t, s[1..]) && t != [] {
          assert t[0] != s[0] by {
            SubsequenceElements(t, s[1..]);
            assert t[0] in t;
          }
        }
      }
      if forall k :: 0 <= k < |s| ==> Kept(s[k]) {
        assert forall k :: 0 <= k < |s[1..]| ==> Kept(s[1..][k]) by {
          forall k | 0 <= k < |s[1..]| ensures Kept(s[1..][k]) {
            assert s[1..][k] == s[k + 1];
          }
        }
      }
    }
  }

  /** The sanitised query: the trimmed name with the disallowed characters removed. */
  function Sanitized(name: string): string {
    Sanitize(Trim(name))
  }

  /** `sanitized.toLowerCase().split(/\s+/)`. */
  function QueryParts(name: string): (parts: seq<string>)
    ensures |parts| >= 1
  {
    SplitWs(ToLower(Sanitized(name)))
  }

  function QueryFirst(name: string): string {
    QueryParts(name)[0]
  }

  function QueryLast(name: string): string {
    var parts := QueryParts(name);
    parts[|parts| - 1]
  }

  /** After sanitising, the query may start with white space; its first token
      is then empty. */
  lemma QueryFirstEmpty(name: string)
    requires Sanitized(name) != [] && IsSpace(Sanitized(name)[0])
    ensures QueryFirst(name) == ""
  {
    var low := ToLower(Sanitized(name));
    assert low[0] == LowerChar(Sanitized(name)[0]);
    assert IsSpace(low[0]);
    SplitFromFirst(low, "");
  }

  /** The example of a query whose first token comes out empty. */
  lemma BangBobExample()
    ensures Sanitized("!! Bob") == " Bob"
    ensures QueryFirst("!! Bob") == ""
  {
    BangBobTrim();
    BangBobSanitize();
    assert IsSpace(" Bob"[0]);
    QueryFirstEmpty("!! Bob");
  }

  lemma BangBobTrim()
    ensures Trim("!! Bob") == "!! Bob"
  {
    var s := "!! Bob";
    assert !IsSpace(s[0]) && !IsSpace(s[|s| - 1]);
    TrimNoSpace(s);
  }

  lemma BangBobSanitize()
    ensures Sanitize("!! Bob") == " Bob"
  {
    var s := "!! Bob";
    assert !Kept(s[0]) && s[1..] == "! Bob";
    assert !Kept(s[1]) && s[2..] == " Bob";
    assert Sanitize(s) == Sanitize(" Bob");
    var t := " Bob";
    assert Kept(t[0]) && Kept(t[1]) && Kept(t[2]) && Kept(t[3]);
    SanitizeProperties(t);
  }

  /** Neither query token contains white space. */
  lemma QueryTokensHaveNoSpace(name: string)
    ensures forall k :: 0 <= k < |QueryFirst(name)| ==> !IsSpace(QueryFirst(name)[k])
    ensures forall k :: 0 <= k < |QueryLast(name)| ==> !IsSpace(QueryLast(name)[k])
  {
    var parts := QueryParts(name);
    SplitFromTokens(ToLower(Sanitized(name)), "");
    assert parts[0] in parts;
    assert parts[|parts| - 1] in parts;
  }

  // ---------------------------------------------------------------------------
  // Candidate rows and the filter

  /** A row of the candidate query: a post with a non-empty extracted name. */
  datatype NameRow = NameRow(title: string, url: string, score: int, created: int, extractedName: string)
  /** A row of the title fallback query. */
  datatype TitleRow = TitleRow(title: string, url: string, score: int, created: int)
  /** A post as the endpoint returns it. */
  datatype SearchPost = SearchPost(title: string, url: string, score: int, created: int)

  /** The database as the endpoint queries it: by a substring of the extracted
      name, and by a substring of the title. `None` stands for a query that
      returned no data. */
  datatype SearchDb = SearchDb(byName: string -> Option<seq<NameRow>>, byTitle: string -> Option<seq<TitleRow>>)

  /** The tokens of a candidate's extracted name, trimmed and lower-cased. */
  function NameParts(row: NameRow): (parts: seq<string>)
    ensures |parts| >= 1
  {
    SplitWs(ToLower(Trim(row.extractedName)))
  }

  /** A candidate is kept when its last token is the query's last token and
      its first token is compatible with the query's first token. */
  predicate RowMatches(row: NameRow, queryFirst: string, queryLast: string) {
    var parts := NameParts(row);
    parts[|parts| - 1] == queryLast && FirstNameMatches(queryFirst, parts[0])
  }

  /** `rows.filter(...)`: the matching rows, in their order. */
  function FilterMatches(rows: seq<NameRow>, queryFirst: string, queryLast: string): (r: seq<NameRow>)
    ensures IsSubsequence(r, rows)
    ensures forall x :: x in r ==> RowMatches(x, queryFirst, queryLast)
    ensures forall x :: x in rows && RowMatches(x, queryFirst, queryLast) ==> x in r
  {
    if rows == [] then []
    else if RowMatches(rows[0], queryFirst, queryLast) then [rows[0]] + FilterMatches(rows[1..], queryFirst, queryLast)
    else
      var rest := FilterMatches(rows[1..], queryFirst, queryLast);
      assert rest != [] ==> rest[0] != rows[0] by {
        if rest != [] { assert rest[0] in rest; }
      }
      rest
  }

  /** The candidates of a query: at most the first 50 rows of the extracted-name
      query for the last token (none when it returned no data). */
  function Candidates(db: SearchDb, name: string): seq<NameRow> {
    Take(db.byName(QueryLast(name)).GetOr([]), CANDIDATE_LIMIT)
  }

  /** The primary result rows: the matching candidates, at most ten. */
  function Primary(db: SearchDb, name: string): seq<NameRow> {
    Take(FilterMatches(Candidates(db, name), QueryFirst(name), QueryLast(name)), RESULT_LIMIT)
  }

  /** The primary results are an order-preserving subsequence of the
      candidates, at most ten long, all matching; and when fewer than ten came
      back, no matching candidate was left out. */
  lemma PrimaryProperties(db: SearchDb, name: string)
    ensures |Primary(db, name)| <= RESULT_LIMIT
    ensures IsSubsequence(Primary(db, name), Candidates(db, name))
    ensures forall x :: x in Primary(db, name) ==> RowMatches(x, QueryFirst(name), QueryLast(name))
    ensures |Primary(db, name)| < RESULT_LIMIT ==>
      forall x :: x in Candidates(db, name) && RowMatches(x, QueryFirst(name), QueryLast(name)) ==> x in Primary(db, name)
  {
    var f := FilterMatches(Candidates(db, name), QueryFirst(name), QueryLast(name));
    PrefixIsSubsequence(Primary(db, name), f);
    SubsequenceTransitive(Primary(db, name), f, Candidates(db, name));
  }

  function ToPost(row: NameRow): SearchPost {
    SearchPost(row.title, row.url, row.score, row.created)
  }

  function TitleToPost(row: TitleRow): SearchPost {
    SearchPost(row.title, row.url, row.score, row.created)
  }

  function ToPosts(rows: seq<NameRow>): (r: seq<SearchPost>)
    ensures |r| == |rows|
    ensures forall i :: 0 <= i < |rows| ==> r[i] == ToPost(rows[i])
  {
    if rows == [] then [] else [ToPost(rows[0])] + ToPosts(rows[1..])
  }

  function TitlesToPosts(rows: seq<TitleRow>): (r: seq<SearchPost>)
    ensures |r| == |rows|
    ensures forall i :: 0 <= i < |rows| ==> r[i] == TitleToPost(rows[i])
  {
    if rows == [] then [] else [TitleToPost(rows[0])] + TitlesToPosts(rows[1..])
  }

  // ---------------------------------------------------------------------------
  // The endpoint

  datatype SearchResponse =
    | Preflight                        // OPTIONS: 204, no body
    | MethodNotAllowed                 // any other method but GET: 405
    | InvalidName                      // 400: no posts and an error field
    | Results(posts: seq<SearchPost>)  // 200: the posts found

  /** The posts for a valid name: the primary results, or, when there are
      none, at most ten rows of the title query for the sanitised name. */
  function Lookup(db: SearchDb, name: string): seq<SearchPost> {
    var posts := ToPosts(Primary(db, name));
    if |posts| == 0 then
      match db.byTitle(Sanitized(name))
      case Some(rows) => if |rows| > 0 then TitlesToPosts(Take(rows, RESULT_LIMIT)) else posts
      case None => posts
    else posts
  }

  /** The search endpoint for one request. */
  function Search(verb: string, name: Option<string>, db: SearchDb): SearchResponse {
    if verb == "OPTIONS" then Preflight
    else if verb != "GET" then MethodNotAllowed
    else if !ValidName(name) then InvalidName
    else Results(Lookup(db, name.value))
  }

  /** A missing or empty name, or one whose trimmed length in code units is
      below 2 or above 100, is rejected; a valid name always gets results
      (possibly none). */
  lemma SearchValidation(name: Option<string>, db: SearchDb)
    ensures Search("GET", name, db) == InvalidName <==>
      (name.None? || name.value == "" || Utf16Length(Trim(name.value)) < MIN_NAME_LENGTH
       || Utf16Length(Trim(name.value)) > MAX_NAME_LENGTH)
    ensures Search("GET", name, db).Results? <==> ValidName(name)
  {
  }

  /** A single emoji is two code units long, so it passes the length check,
      while a single letter does not. */
  lemma SearchEmojiName(db: SearchDb)
    ensures Search("GET", Some("\U{1F600}"), db).Results?
    ensures Search("GET", Some("a"), db) == InvalidName
  {
    var e := "\U{1F600}";
    assert !IsSpace(e[0]);
    TrimNoSpace(e);
    assert e[1..] == [];
    assert Utf16Length(e) == 2;
    assert !IsSpace("a"[0]);
    TrimNoSpace("a");
    assert "a"[1..] == [];
  }

  /** A method other than GET or OPTIONS gets 405. */
  lemma SearchMethod(verb: string, name: Option<string>, db: SearchDb)
    requires verb != "GET" && verb != "OPTIONS"
    ensures Search(verb, name, db) == MethodNotAllowed
  {
  }

  /** The title query is consulted only when the primary filter found nothing:
      otherwise the answer is the primary results whatever the title query returns. */
  lemma FallbackOnlyWhenEmpty(db: SearchDb, byTitle: string -> Option<seq<TitleRow>>, name: string)
    requires |Primary(db, name)| > 0
    ensures Lookup(db, name) == ToPosts(Primary(db, name))
    ensures Lookup(db, name) == Lookup(SearchDb(db.byName, byTitle), name)
  {
    assert Primary(SearchDb(db.byName, byTitle), name) == Primary(db, name);
  }

  /** Every answer holds at most ten posts; a primary answer is the primary rows
      in order, and a fallback answer is the leading title rows in order. */
  lemma {:induction false} LookupShape(db: SearchDb, name: string)
    ensures |Lookup(db, name)| <= RESULT_LIMIT
    ensures |Primary(db, name)| > 0 ==>
      forall i :: 0 <= i < |Lookup(db, name)| ==> Lookup(db, name)[i] == ToPost(Primary(db, name)[i])
    ensures |Primary(db, name)| == 0 && db.byTitle(Sanitized(name)).Some? ==>
      var rows := Take(db.byTitle(Sanitized(name)).value, RESULT_LIMIT);
      |Lookup(db, name)| == |rows| && forall i :: 0 <= i < |rows| ==> Lookup(db, name)[i] == TitleToPost(rows[i])
  {
    PrimaryProperties(db, name);
  }
}
