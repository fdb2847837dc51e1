# amiin: ingestion, moderation and scoring core, modelled in Dafny

The modelled system collects posts of the LinkedInLunatics subreddit into a Supabase table `reddit_posts`. It reads a name and headline from each post's image and keeps politically sensitive posts out of sight. Over that table it answers a fuzzy person search and a leaderboard, and it computes the "lunatic card" score shown in the browser.

The Dafny project models these parts:

- **Ingestion** (`Ingest`, `Enrich`, `DailySync`, `SyncReddit`, `LocalSync`):
  - cursor paging over the Reddit listing, with the PullPush archive as fallback or backfill
  - the PullPush record mapping with its defaults
  - the image-URL classifier and the permalink-to-URL rule
  - the batched upsert of 50 rows
  - the OCR pass: image loaded under 5 MiB with its media type, the vision reply cut down to its `{…}` span, and the identity written back
  - the daily sync's new-id tracking and auto-hide phase
- **The post table** (`PostStore`): a class `Store` whose `rows` map is changed by upsert, identity update, hide and delete, next to the value functions that specify them.
- **Moderation** (`Moderation`, `HideFlagged`, `ReviewFlagged`):
  - the sensitive-pattern list and the auto-hide rule
  - the gathering of flagged posts: each id once, first hit wins, then a stable sort by score
  - the hide ladder of `hide-flagged.ts`, with its dry run and counters
  - the interactive keep/delete/skip/quit loop of `review-flagged.ts`
- **Search and leaderboard** (`RedditSearch`, `Leaderboard`):
  - the first-name compatibility rule
  - the sanitiser and the `\s+` split
  - the candidate filter and the title fallback
  - `parseInt` and the clamping of `limit`; the `sort` whitelist
  - the handlers' status codes and error bodies
- **Scoring** (`Scoring`, `Headlines`, `Tiers`):
  - behaviour points
  - the headline analysis: pipes, buzzwords, length bonus, flags
  - the class vote and its tie-break
  - the four stats
  - the tier table, the star string and the Mythic test

Shared helpers for strings (`Text`: ASCII lower-casing, JavaScript white space, `trim`, `split(/\s+/)`, `includes`, decimal digits) and for sequences (`Common`: `Take`, batching, subsequences) are defined once.

**Modelling choices:**
- Every network call, database call, vision call and `JSON.parse` is a parameter of the function that uses it. These are the Reddit page fetch, the PullPush reply, the per-batch acceptance of an upsert, the HEAD check, the PATCH and DELETE results, the key presses and the query results.
- A database query's `.order(...).limit(n)` is the parameter's ordered result cut down with `Take(rows, n)`.
- The clock (`synced_at`) is a `now` string parameter.
- Imperative loops are Dafny methods proved equal to a recursive specification function. The properties are then lemmas about that function.

**Behaviour of the code that the model reproduces:**
- Paging stops at `MAX_PAGES` requests, at a page without an `after` cursor, or at a request that throws. The only batching after that is the 50-row upsert.
- The media type of an image comes from its `content-type` header, cut at the first `;` and trimmed (`image/jpeg` when the header is absent or empty).
- An error thrown by the vision request or by reading its body escapes `extractNameFromImage` and ends the whole sync job with the 500 reply.
- The OCR candidates are the posts with an image and no extracted name, newest `created_utc` first.
- After a Reddit error, the local script keeps the pages it already has and adds the unseen PullPush posts. The two edge functions replace those pages with the PullPush posts.
- Lengths are JavaScript lengths, in UTF-16 code units: a character above U+FFFF counts two. This applies to the search name check, the first-name rule and the headline length bonus.
- Postgres rejects an upsert batch whose rows repeat an id ("cannot affect row a second time"). The fetched pages are never deduplicated, so such a batch counts as a failed batch.

## Model

| member | source | states |
|---|---|---|
| Common.Take | supabase/functions/reddit-search/index.ts:66 | `.limit(n)`: the result is a prefix of the rows of length min(|rows|, n) |
| Common.BatchesPartition | supabase/functions/daily-sync/index.ts:240-241 | cutting the posts into `slice(i, i + 50)` chunks loses, duplicates and reorders nothing; every chunk has 1..50 elements and all but the last exactly 50 |
| Common.BatchesHead | supabase/functions/daily-sync/index.ts:240-241 | the first chunk is `posts.slice(0, 50)` and the remaining chunks are the chunks of the rest |
| Common.OrNull | supabase/functions/daily-sync/index.ts:161 | `x \|\| null` keeps exactly the non-empty strings: the vision fields here and the Reddit cursor `data.after \|\| null` at line 59 |
| Text.ToLowerIdempotent | supabase/functions/reddit-search/index.ts:18-19 | lower-casing is idempotent and keeps the length |
| Text.ToLowerSlice | supabase/functions/daily-sync/index.ts:170-171 | lower-casing commutes with slicing, so case-insensitive `includes` can be read at any position |
| Text.ContainsAt | supabase/functions/daily-sync/index.ts:171 | `includes` holds exactly when the pattern occurs at some position |
| Text.ContainsLength | supabase/functions/daily-sync/index.ts:87 | a string only includes strings no longer than itself (the empty destination matches no image host) |
| Text.TrimStart | supabase/functions/leaderboard/index.ts:27 | the leading white space `parseInt` skips: the result is a suffix with no white space at its head, and only white space was removed |
| Text.TrimEnd | supabase/functions/reddit-search/index.ts:40 | the trailing white space `trim` removes: the result is a prefix whose last character is not white space |
| Text.Trim | supabase/functions/reddit-search/index.ts:40 | `trim()`: a slice of the input with no white space at either end |
| Text.TrimChars | supabase/functions/daily-sync/index.ts:108 | trimming only removes characters |
| Text.TrimEmpty | supabase/functions/daily-sync/index.ts:176 | `s.trim() === ''` exactly when every character of `s` is white space |
| Text.TrimNoSpace | supabase/functions/daily-sync/index.ts:108 | a string with no white space at its ends is its own trim |
| Text.TrimIdempotent | supabase/functions/reddit-search/index.ts:50 | trimming twice is trimming once |
| Text.DropSpaces | supabase/functions/reddit-search/index.ts:51 | the separator `\s+` consumes a maximal run of white space |
| Text.SplitWs | supabase/functions/reddit-search/index.ts:51 | `split(/\s+/)` yields at least one token |
| Text.SplitFromFirst | supabase/functions/reddit-search/index.ts:52 | the first token starts the string and is empty exactly when the string is empty or starts with white space |
| Text.SplitFromTokens | supabase/functions/reddit-search/index.ts:51 | no token contains white space |
| Text.SplitFromLast | supabase/functions/reddit-search/index.ts:53 | a string ending in white space has an empty last token |
| Text.CountChar | src/lib/headlines.ts:55 | `(s.match(/\|/g) \|\| []).length` is between 0 and |s| |
| Text.CountCharMultiset | src/lib/headlines.ts:55 | the pipe count equals the number of copies of `\|` in the headline |
| Text.Repeat | src/lib/tiers.ts:98 | `repeat(n)` has n copies of the string |
| Text.ShowNat | src/lib/headlines.ts:56 | `String(n)`: non-empty decimal digits with no leading zero |
| Text.Utf16Length | src/lib/headlines.ts:74 | `length` counts between one and two code units per character |
| Text.Utf16LengthAppend | supabase/functions/reddit-search/index.ts:22 | the code units of a concatenation add up |
| Text.Utf16LengthPrefix | supabase/functions/reddit-search/index.ts:21-22 | a prefix is no longer in code units, and a proper prefix is shorter |
| Text.Utf16LengthLower | supabase/functions/reddit-search/index.ts:18-19 | lower-casing keeps the code-unit length |
| Text.ShowNatValue | src/lib/headlines.ts:56 | reading the printed digits back gives n |
| PostStore.MergeTwice | supabase/functions/daily-sync/index.ts:252-254 | upserting the same id twice is upserting the second row once |
| PostStore.LastRow | supabase/functions/daily-sync/index.ts:252-254 | the row-by-row merge that specifies an upsert takes the last row carrying an id; the database accepts only batches where that is the id's one row (`Ingest.RepeatedIdRejected`) |
| PostStore.UpsertRowsDistinct | supabase/functions/daily-sync/index.ts:252-254 | upserting a batch without repeated ids stores every row of it, merged with the stored identity and moderation columns |
| PostStore.UpsertRowsAppend | supabase/functions/daily-sync/index.ts:240-261 | upserting two batches in turn is upserting their concatenation |
| PostStore.UpsertRowsSpec | supabase/functions/daily-sync/index.ts:241-254 | `upsert(onConflict: 'id')`: ids outside the batch keep their record; ids in it get the columns of their last row and keep their identity and moderation columns (none and visible for a new id) |
| PostStore.UpsertRowsKeys | supabase/functions/daily-sync/index.ts:252-254 | the stored ids afterwards are the old ids plus the batch's |
| PostStore.UpsertPreservesModeration | supabase/functions/daily-sync/index.ts:241-250 | the upserted columns exclude `hidden` and the identity: an upsert never unhides or renames a post |
| PostStore.UpsertIdempotent | supabase/functions/daily-sync/index.ts:252-254 | re-ingesting the same batch changes nothing |
| PostStore.SetIdentitySpec | supabase/functions/daily-sync/index.ts:283-289 | the identity update touches only the two identity columns of that one post |
| PostStore.HideIds | supabase/functions/daily-sync/index.ts:309-312 | `update({hidden: true}).in('id', ids)` keeps the ids and only sets `hidden` |
| PostStore.HideIdsSpec | supabase/functions/daily-sync/index.ts:309-312 | exactly the named stored ids end up hidden, nothing else changes, nothing is unhidden |
| PostStore.HideIdsIdempotent | scripts/hide-flagged.ts:65-70 | hiding again changes nothing |
| PostStore.HideIdsUnion | scripts/hide-flagged.ts:143-181 | hiding one post after another is hiding them all at once |
| PostStore.HiddenIds | supabase/functions/leaderboard/index.ts:53 | the hidden ids are stored ids |
| PostStore.HiddenIdsAfterHide | supabase/functions/daily-sync/index.ts:309-312 | after hiding, the hidden ids are the old ones plus the requested stored ids |
| PostStore.Store.constructor | supabase/functions/daily-sync/index.ts:195 | the store starts with the given table |
| PostStore.Store.Upsert | supabase/functions/daily-sync/index.ts:252-254 | the row-by-row loop leaves exactly `UpsertRows(old rows, batch)` |
| PostStore.Store.UpdateIdentity | supabase/functions/daily-sync/index.ts:283-289 | leaves exactly `SetIdentity(old rows, id, name, headline)` |
| PostStore.Store.Hide | supabase/functions/daily-sync/index.ts:309-312 | leaves exactly `HideIds(old rows, ids)` |
| PostStore.Store.Delete | scripts/review-flagged.ts:52-59 | `DELETE ?id=eq.id` removes that id and nothing else |
| Ingest.FromPush | supabase/functions/daily-sync/index.ts:69-78 | `permalink \|\| full_link` (possibly still missing), score and time default 0, author "" |
| Ingest.FromPushLocal | scripts/local-sync.ts:59-68 | `permalink \|\| full_link \|\| ''` is always present; everything else as in the edge functions |
| Ingest.MapFromPush | supabase/functions/daily-sync/index.ts:69 | `.map` position by position |
| Ingest.MapFromPushLocal | scripts/local-sync.ts:59 | `.map` position by position, every permalink present |
| Ingest.GetImageUrl | supabase/functions/daily-sync/index.ts:83-89 | a result is the post's non-empty destination |
| Ingest.GetImageUrlRules | supabase/functions/daily-sync/index.ts:83-89 | if and only if: an image hint with a destination, a `.jpg/.jpeg/.png/.webp` ending (case-insensitive, optional `?query`), or an `i.redd.it` / `i.imgur.com` destination (same in sync-reddit 74-87 and local-sync 71-77) |
| Ingest.ImageExtensionExample | supabase/functions/daily-sync/index.ts:85-88 | `x.JPG?w=1` is an image (any case, query allowed) and `x.gif` is not (not one of the four extensions, no host match) |
| Ingest.ImageHostExample | supabase/functions/daily-sync/index.ts:87 | an `i.redd.it` and an `https://i.imgur.com` destination without extension or hint are images |
| Ingest.NormaliseUrl | supabase/functions/daily-sync/index.ts:244 | the URL starts with `http`: either the permalink itself or `https://reddit.com` + permalink |
| Ingest.NormaliseUrlIdempotent | supabase/functions/daily-sync/index.ts:244 | an absolute permalink is kept as it is |
| Ingest.NormaliseUrlRelative | supabase/functions/daily-sync/index.ts:244 | a relative permalink gets the reddit.com origin |
| Ingest.ToRow | supabase/functions/daily-sync/index.ts:241-250 | no row exactly when the permalink is missing (`startsWith` throws); otherwise the row's columns are the post's, with the normalised URL and the image URL |
| Ingest.ToRows | supabase/functions/daily-sync/index.ts:241 | the rows of a batch: one per post, or none when some post has no permalink |
| Ingest.ToRowsSpec | supabase/functions/daily-sync/index.ts:241-250 | rows exist exactly when every post has a permalink, and the rows line up with the posts |
| Ingest.ToRowsAppend | supabase/functions/daily-sync/index.ts:240-241 | mapping two batches is mapping their concatenation |
| Ingest.ToRowsIds | supabase/functions/daily-sync/index.ts:242 | the rows' ids are the posts' ids |
| Ingest.ResponsesShape | supabase/functions/daily-sync/index.ts:207-215 | at most `MAX_PAGES` requests, at least one; every response but the last is a page with a cursor; stopping early means the last request threw or had no cursor |
| Ingest.PagingFromTrace | supabase/functions/daily-sync/index.ts:207-215 | the loop's posts are those of every page received, in order; its request count is the trace length; it failed exactly when the last request threw |
| Ingest.PagingBounds | supabase/functions/daily-sync/index.ts:209-213 | at most `maxPages` requests; stops early only at an empty cursor or a thrown request |
| Ingest.FetchPages | supabase/functions/daily-sync/index.ts:207-215 | the loop with `allPosts.push(...result.posts)` computes `Paging` |
| Ingest.PullPushPosts | supabase/functions/daily-sync/index.ts:62-79 | a non-OK status gives no posts, a thrown request gives none at all (the error escapes), otherwise the mapped records |
| Ingest.FetchWithFallbackSpec | supabase/functions/daily-sync/index.ts:207-220 | the fallback is used exactly when a Reddit request threw, and then the collected pages are replaced by the PullPush posts; otherwise the posts of every page in order |
| Ingest.FetchPosts | supabase/functions/daily-sync/index.ts:207-220 | the `try`/`catch` around the paging loop computes `FetchWithFallback` (same in sync-reddit 198-213) |
| Ingest.UpsertFromCounts | supabase/functions/daily-sync/index.ts:256-260 | the upserted count never exceeds the posts and reaches them exactly when the loop ran to its end with no batch rejected |
| Ingest.UpsertFromKeys | supabase/functions/daily-sync/index.ts:240-261 | every stored id is kept and only batch ids are added |
| Ingest.UpsertFromKeepsModeration | supabase/functions/daily-sync/index.ts:241-250 | the upsert loop never changes a stored post's identity or `hidden`, and new posts start visible |
| Ingest.UpsertFromCountsFailed | supabase/functions/daily-sync/index.ts:256-257 | the count of rejected batches never goes down |
| Ingest.UpsertFromStrict | scripts/local-sync.ts:155 | where a rejected upsert throws, a run that was not cut short had no rejected batch |
| Ingest.RepeatedIdRejected | supabase/functions/daily-sync/index.ts:252-257 | a batch that carries one post id twice is rejected whatever else holds: table unchanged, one more failed batch, and the loop stops where rejection aborts |
| Ingest.UpsertFromComplete | supabase/functions/daily-sync/index.ts:240-261 | with no rejection and no abort, batching changes nothing: the table is one upsert of all the rows (every batch then had distinct ids) |
| Ingest.UpsertAllProperties | supabase/functions/daily-sync/index.ts:240-261 | the batched upsert as a whole: count bounds, kept ids, untouched moderation columns, and the single-upsert table when nothing went wrong |
| Ingest.BatchAt | supabase/functions/daily-sync/index.ts:240-241 | turn i works on `posts.slice(i, i + 50)` and the rest of the loop on what follows |
| Ingest.UpsertBatch | supabase/functions/daily-sync/index.ts:241-260 | one turn of the loop leaves the store, the counters and the stop flag that `BatchTurn` specifies |
| Ingest.UpsertPhase | supabase/functions/daily-sync/index.ts:240-261 | the `for (i += 50)` loop leaves exactly the table and counters of `UpsertAll` (daily-sync, sync-reddit 216-239, and local-sync 143-158 with `abortOnError`) |
| Enrich.BeforeSemicolon | supabase/functions/daily-sync/index.ts:108 | `split(';')[0]` is a prefix without `;`, cut at the first `;` |
| Enrich.MediaType | supabase/functions/daily-sync/index.ts:96 | the media type contains no `;` and has no white space at its ends |
| Enrich.MediaTypeDefault | supabase/functions/daily-sync/index.ts:96 | a missing or empty `content-type` gives `image/jpeg` |
| Enrich.MediaTypeMissing | supabase/functions/daily-sync/index.ts:96 | a missing or empty header is read as `image/jpeg` |
| Enrich.MediaTypeBare | supabase/functions/daily-sync/index.ts:108 | a clean header is the media type itself |
| Enrich.MediaTypeDropsParameter | supabase/functions/daily-sync/index.ts:108 | `type; charset=…` gives the trimmed `type` |
| Enrich.MediaTypePlain | supabase/functions/daily-sync/index.ts:108 | a header without `;` is only trimmed |
| Enrich.LoadImage | supabase/functions/daily-sync/index.ts:91-113 | an image exactly when the response was OK and at most 5 MiB; its bytes are the body and its media type the header's |
| Enrich.LoadImageLimit | supabase/functions/daily-sync/index.ts:99 | exactly 5 MiB is sent and one byte more is not |
| Enrich.FirstIndex | supabase/functions/daily-sync/index.ts:158 | the first position of a character, or none when it does not occur |
| Enrich.LastIndex | supabase/functions/daily-sync/index.ts:158 | the last position of a character, or none when it does not occur |
| Enrich.JsonSpanSpec | supabase/functions/daily-sync/index.ts:158-159 | `/\{[\s\S]*\}/` matches exactly when some `{` precedes some `}`; the match runs from the first `{` to the last `}` |
| Enrich.JsonSpan | supabase/functions/daily-sync/index.ts:158 | a match starts with `{` and ends with `}` |
| Enrich.JsonSpanGreedy | supabase/functions/daily-sync/index.ts:158 | the match is greedy: in `a{b}c}d` it runs to the last `}` |
| Enrich.ExtractIdentity | supabase/functions/daily-sync/index.ts:117-165 | names and headlines returned are non-empty; the extraction throws exactly when the vision call threw |
| Enrich.ExtractIdentityName | supabase/functions/daily-sync/index.ts:149-164 | a name exactly when the reply was OK and its `{…}` span parses with a non-empty name, and it is that name |
| Enrich.OcrRowOutcome | supabase/functions/daily-sync/index.ts:277-291 | a row is written only with a non-empty name the database accepted |
| Enrich.OcrRowOutcomeCases | supabase/functions/daily-sync/index.ts:277-291 | if and only if: written when the image loaded, a name came back and the update was accepted; the run stops when the image loaded and the vision call threw |
| Enrich.RowIds | supabase/functions/daily-sync/index.ts:276 | the ids of the query rows |
| Enrich.OcrFromCount | supabase/functions/daily-sync/index.ts:291 | at most one post counted per row |
| Enrich.OcrFromEffect | supabase/functions/daily-sync/index.ts:276-295 | the pass keeps the ids; it changes only identity columns, only of queried rows, and only to a non-empty name |
| Enrich.OcrOnlyCandidates | supabase/functions/daily-sync/index.ts:265-271 | against the un-processed query, every changed post had an image and no name before and has a name after |
| Enrich.OcrPass | supabase/functions/daily-sync/index.ts:276-295 | the `for (const row of unOcrd)` loop leaves the table, count and stop flag of `OcrFrom` |
| Enrich.OcrPhaseProperties | supabase/functions/daily-sync/index.ts:263-297 | at most `OCR_BATCH_SIZE` updates, only identity columns of queried rows, none without an API key or after a failed query |
| Enrich.RunOcrPhase | supabase/functions/daily-sync/index.ts:264-297 | the phase against the store computes `OcrPhase` (sync-reddit 242-276 is the same with 50) |
| Moderation.NameBlankIff | supabase/functions/daily-sync/index.ts:176 | `!name \|\| name.trim() === ''` exactly when the name is missing or all white space |
| Moderation.AutoHideIgnoresCase | supabase/functions/daily-sync/index.ts:170-171 | titles equal once lower-cased get the same decision |
| Moderation.AutoHideCases | supabase/functions/daily-sync/index.ts:169-179 | without a pattern hit nothing is hidden; with one, a post lacking an image or a usable name is hidden and one with both is kept |
| Moderation.GunIsSensitive | supabase/functions/daily-sync/index.ts:10-22 | a title containing `gun` in any case is flagged |
| Moderation.MixedCasePattern | supabase/functions/daily-sync/index.ts:21 | the mixed-case `Alex Pretti` is compared lower-cased |
| Moderation.FirstWith | scripts/hide-flagged.ts:102-107 | the post of a list that first carries an id |
| Moderation.FirstWithAppend | scripts/hide-flagged.ts:102-107 | later posts do not change which post first carried an id |
| Moderation.AddUnseenSpec | scripts/hide-flagged.ts:102-107 | the seen-set loop keeps the old list as a prefix, holds each id once, adds exactly the new ids, each with its first post |
| Moderation.AddUnseenKeepsEarlier | scripts/hide-flagged.ts:103 | an id already gathered keeps its earlier post |
| Moderation.AddUnseenAppend | scripts/hide-flagged.ts:95-118 | two runs of the loop are one run over both lists |
| Moderation.Absorb | scripts/hide-flagged.ts:102-107 | the loop keeps `seenIds` equal to the ids gathered and computes `AddUnseen` |
| Moderation.SortByScore | scripts/hide-flagged.ts:121 | the sort is a permutation |
| Moderation.InsertByScoreSorted | scripts/hide-flagged.ts:121 | inserting into a sorted list keeps it sorted |
| Moderation.SortByScoreSorted | scripts/hide-flagged.ts:121 | `sort((a, b) => b.score - a.score)` is highest first |
| Moderation.InsertByScoreWithScore | scripts/hide-flagged.ts:121 | an insert puts a post in front of the equal-score posts it precedes |
| Moderation.SortByScoreStable | scripts/hide-flagged.ts:121 | the sort is stable: posts of one score keep their order |
| Moderation.InsertByScoreIds | scripts/hide-flagged.ts:121 | inserting a new id keeps the ids distinct |
| Moderation.SortByScoreKeepsIds | scripts/hide-flagged.ts:121 | sorting keeps the ids and their distinctness |
| HideFlagged.GatherFromHits | scripts/hide-flagged.ts:95-119 | the loop fails exactly when a query fails; otherwise it appends the unseen hits of every title and name query, in query order |
| HideFlagged.FetchFlaggedProperties | scripts/hide-flagged.ts:89-123 | the flagged list holds each id once with its first hit, every id any query returned, highest score first, stable among equal scores |
| HideFlagged.FetchFlaggedPosts | scripts/hide-flagged.ts:89-123 | the loops over `SENSITIVE_PATTERNS` compute `FetchFlagged` |
| HideFlagged.FetchFlaggedPostsFor | scripts/hide-flagged.ts:95-122 | the loops over any pattern list compute `FetchFlaggedFor` |
| HideFlagged.Decide | scripts/hide-flagged.ts:147-180 | a post reaches the image check only with an image and a usable name |
| HideFlagged.DecideLadder | scripts/hide-flagged.ts:147-180 | if and only if: hidden when an image, a usable name or image access is missing; checked over the network when it has both an image and a name |
| HideFlagged.DecideAgreesWithAutoHide | scripts/hide-flagged.ts:147-161 | for a flagged title the sweep hides what `shouldAutoHide` hides, and beyond that only posts with a dead image |
| HideFlagged.CountChecks | scripts/hide-flagged.ts:164 | at most one image check per post |
| HideFlagged.StepCounts | scripts/hide-flagged.ts:143-181 | one turn counts the post once as hidden or for review, unless its PATCH fails |
| HideFlagged.SweepCounts | scripts/hide-flagged.ts:138-181 | a complete loop counts every post once, checks exactly those with image and name, and lists the review posts |
| HideFlagged.SweepTable | scripts/hide-flagged.ts:150-172 | the only writes are `hidden: true` on posts the ladder picks, all of them unless the run is cut short; a dry run writes nothing |
| HideFlagged.DryRunMatches | scripts/hide-flagged.ts:150-188 | a dry run reports the same counters and review list as a live run that completes |
| HideFlagged.StepDryLive | scripts/hide-flagged.ts:150-172 | one turn of a dry run moves the counters exactly as a live turn that does not fail, and never stops the run |
| HideFlagged.HidePost | scripts/hide-flagged.ts:65-74 | the PATCH sets `hidden` on that id unless this is a dry run or the write fails |
| HideFlagged.Visit | scripts/hide-flagged.ts:144-180 | one loop turn leaves the state `SweepStep` specifies |
| HideFlagged.Sweep | scripts/hide-flagged.ts:138-181 | the loop leaves the state `SweepFrom` specifies |
| HideFlagged.RunHideProperties | scripts/hide-flagged.ts:125-196 | no write without a key, a query or flagged posts; only `hidden: true` is written; a complete run counts every post once; a dry run writes nothing and matches the live counts |
| HideFlagged.SweepFacts | scripts/hide-flagged.ts:138-188 | a sweep keeps the ids and only adds `hidden: true`; a complete one has the counts above; a dry run leaves the table |
| HideFlagged.Run | scripts/hide-flagged.ts:125-196 | `main` against the store computes `RunHide` |
| ReviewFlagged.GatherFromHits | scripts/review-flagged.ts:86-112 | each loop fails exactly when one of its queries fails, and otherwise appends the unseen hits in order |
| ReviewFlagged.FetchFlaggedProperties | scripts/review-flagged.ts:82-118 | each id once, highest score first; an id a title query returned carries its first title hit, any other id its first name hit |
| ReviewFlagged.Gather | scripts/review-flagged.ts:87-98 | one gathering loop computes `GatherFrom` and keeps `seenIds` consistent |
| ReviewFlagged.FetchFlaggedPosts | scripts/review-flagged.ts:82-118 | the two loops and the sort compute `FetchFlagged` |
| ReviewFlagged.ActionOf | scripts/review-flagged.ts:154-179 | a key quits exactly when it is `q` in any case or Ctrl-C |
| ReviewFlagged.ActionExamples | scripts/review-flagged.ts:77 | keys are lower-cased; a longer or empty read is unrecognised |
| ReviewFlagged.Reached | scripts/review-flagged.ts:181 | the loop stops at the first quit key or at the end |
| ReviewFlagged.ReachedEnd | scripts/review-flagged.ts:141-182 | the loop reaches the end exactly when no quit key was pressed |
| ReviewFlagged.FailedDeletesZero | scripts/review-flagged.ts:164-166 | no failed delete counted exactly when none failed |
| ReviewFlagged.StepTally | scripts/review-flagged.ts:154-179 | a non-quit key moves exactly one counter by one unless its delete fails, and removes only what it deletes |
| ReviewFlagged.ReviewTally | scripts/review-flagged.ts:141-182 | the counters add up to the posts reached minus failed deletes; the table loses exactly the deleted ids |
| ReviewFlagged.ReviewCounters | scripts/review-flagged.ts:184-188 | the counters never exceed the total, and equal it exactly when no quit and no failed delete |
| ReviewFlagged.ReviewLoop | scripts/review-flagged.ts:141-182 | the key loop against the store computes `ReviewFrom` |
| ReviewFlagged.RunReviewProperties | scripts/review-flagged.ts:120-189 | nothing deleted unless posts were flagged; only flagged ids deleted; counters at most the total |
| ReviewFlagged.DeletedAreFlagged | scripts/review-flagged.ts:161 | a deleted id is one of the posts shown |
| ReviewFlagged.Run | scripts/review-flagged.ts:120-189 | `main` against the store computes `RunReview` |
| DailySync.ExistingIds | supabase/functions/daily-sync/index.ts:229-234 | the stored fetched ids, or a subset of them (none) when the query gives no data |
| DailySync.NewIdsOfSpec | supabase/functions/daily-sync/index.ts:236-238 | the new ids are the fetched ids minus the existing ones |
| DailySync.NewIdsSpec | supabase/functions/daily-sync/index.ts:226-238 | exactly the fetched ids not yet stored; every fetched id when the existing-id query failed |
| DailySync.CollectNewIds | supabase/functions/daily-sync/index.ts:236-238 | the loop computes `NewIdsOf` |
| DailySync.ToHide | supabase/functions/daily-sync/index.ts:301-307 | if and only if: an id is hidden when it is new, stored and flagged by `shouldAutoHide` on its stored row |
| DailySync.AutoHideSpec | supabase/functions/daily-sync/index.ts:299-321 | only `hidden` changes, only on flagged new posts; with both requests succeeding every one of them is hidden and counted; otherwise nothing changes |
| DailySync.RunAutoHide | supabase/functions/daily-sync/index.ts:299-321 | phase 4 against the store computes `AutoHide` |
| DailySync.DailySyncReport | supabase/functions/daily-sync/index.ts:203-349 | a finished run: at most 40 requests, fallback exactly on a Reddit error, upserted ≤ fetched with equality exactly without rejected batches, at most 100 names read, hidden ≤ new; a 500 exactly on an escaped error |
| DailySync.UpsertOcrHidden | supabase/functions/daily-sync/index.ts:240-297 | the upsert and OCR phases hide and unhide nothing |
| DailySync.HiddenChain | supabase/functions/daily-sync/index.ts:299-321 | after all phases only flagged fresh posts are newly hidden and nothing is unhidden |
| DailySync.DailySyncTable | supabase/functions/daily-sync/index.ts:183-372 | finished or not, no stored post is lost or unhidden; a newly hidden post is a freshly fetched flagged one; a failed run hides nothing |
| DailySync.Run | supabase/functions/daily-sync/index.ts:203-349 | the handler, phase by phase, against the store computes `DailySync` |
| SyncReddit.SyncRedditReport | supabase/functions/sync-reddit/index.ts:194-289 | a finished run counts at most the fetched posts (all exactly without rejections), at most 50 names (none without a key), fallback exactly on a Reddit error, at most 40 requests |
| SyncReddit.SyncRedditHidden | supabase/functions/sync-reddit/index.ts:216-276 | the run keeps every stored post, adds only fetched ids and never changes `hidden` |
| SyncReddit.Run | supabase/functions/sync-reddit/index.ts:194-298 | the handler against the store computes `SyncReddit` |
| LocalSync.PullPushLocal | scripts/local-sync.ts:121-133 | the mapped records, none on a non-OK status or a thrown request (caught); every permalink present |
| LocalSync.UnseenSpec | scripts/local-sync.ts:127-128 | `filter(p => !existingIds.has(p.id))` keeps, in order and with multiplicity, exactly the posts with an unseen id |
| LocalSync.AllPostsSpec | scripts/local-sync.ts:103-133 | Reddit posts first, in order, then the unseen PullPush posts; the ids are those of both sources |
| LocalSync.LocalSyncSpec | scripts/local-sync.ts:97-161 | no write without a key or with nothing fetched; a finished run upserted every merged post and left one upsert of all of them; no stored post is lost or unhidden |
| LocalSync.FilterUnseen | scripts/local-sync.ts:128 | the filter loop computes `Unseen` |
| LocalSync.Run | scripts/local-sync.ts:97-161 | `main` against the store computes `LocalSync` |
| RedditSearch.FirstNameMatchesIff | supabase/functions/reddit-search/index.ts:17-23 | compatible exactly when equal ignoring case or one lower-cased name is a prefix of the other and at least 3 UTF-16 code units shorter |
| RedditSearch.FirstNameMatchesSymmetric | supabase/functions/reddit-search/index.ts:21 | the argument order does not matter |
| RedditSearch.FirstNameMatchesRejects | supabase/functions/reddit-search/index.ts:22 | different names of equal code-unit length, or with neither a prefix of the other, never match |
| RedditSearch.FirstNameEmojiExample | supabase/functions/reddit-search/index.ts:21-22 | `Ken` matches `Ken` followed by two emoji: the emoji are four code units |
| RedditSearch.FirstNameExamples | supabase/functions/reddit-search/index.ts:12-16 | Ken = KEN, Chris ~ Christopher, Ken ≁ Kent |
| RedditSearch.EmptyFirstTokenMatches | supabase/functions/reddit-search/index.ts:22 | an empty first token matches the empty name and every name of 3 or more code units |
| RedditSearch.Sanitize | supabase/functions/reddit-search/index.ts:50 | the sanitised query is no longer than the input |
| RedditSearch.SanitizeProperties | supabase/functions/reddit-search/index.ts:50 | only `\w`, white space, `.` and `-` remain, in order, all of them, and sanitising is idempotent |
| RedditSearch.QueryParts | supabase/functions/reddit-search/index.ts:51 | there is always a first and a last token |
| RedditSearch.QueryFirstEmpty | supabase/functions/reddit-search/index.ts:50-52 | a sanitised query starting with white space has an empty first token |
| RedditSearch.BangBobExample | supabase/functions/reddit-search/index.ts:50-52 | `!! Bob` sanitises to ` Bob` and has an empty first token |
| RedditSearch.QueryTokensHaveNoSpace | supabase/functions/reddit-search/index.ts:52-53 | neither query token contains white space |
| RedditSearch.NameParts | supabase/functions/reddit-search/index.ts:71 | a candidate's name always has a first and a last token |
| RedditSearch.FilterMatches | supabase/functions/reddit-search/index.ts:69-75 | the filter keeps, in order, exactly the matching rows |
| RedditSearch.PrimaryProperties | supabase/functions/reddit-search/index.ts:59-76 | at most 10 matching candidates in order, with none left out when fewer than 10 came back |
| RedditSearch.ToPosts | supabase/functions/reddit-search/index.ts:77-82 | the response fields line up with the rows |
| RedditSearch.TitlesToPosts | supabase/functions/reddit-search/index.ts:94-99 | the fallback fields line up with the rows |
| RedditSearch.SearchValidation | supabase/functions/reddit-search/index.ts:40-48 | a missing or empty name, or a trimmed length outside 2..100 code units, gets 400, and only those |
| RedditSearch.SearchEmojiName | supabase/functions/reddit-search/index.ts:40 | a single emoji (two code units) passes the length check; a single letter gets 400 |
| RedditSearch.SearchMethod | supabase/functions/reddit-search/index.ts:30-35 | any method but GET and OPTIONS gets 405 |
| RedditSearch.FallbackOnlyWhenEmpty | supabase/functions/reddit-search/index.ts:85 | the title query matters only when the primary filter found nothing |
| RedditSearch.LookupShape | supabase/functions/reddit-search/index.ts:76-101 | at most 10 posts: the primary rows in order, or the leading title rows |
| Leaderboard.DigitPrefix | supabase/functions/leaderboard/index.ts:27 | the longest run of leading digits |
| Leaderboard.ParseIntJs | supabase/functions/leaderboard/index.ts:27 | `parseInt(s, 10)` is `NaN` exactly when no digit follows the white space and sign |
| Leaderboard.SignFree | supabase/functions/leaderboard/index.ts:27 | at most one leading sign is dropped |
| Leaderboard.ParseUnsigned | supabase/functions/leaderboard/index.ts:27 | an unsigned string is read from its first character |
| Leaderboard.ParseShowNat | supabase/functions/leaderboard/index.ts:27 | a decimal number reads back as itself |
| Leaderboard.ParseNegShowNat | supabase/functions/leaderboard/index.ts:27 | `-n` reads back as -n |
| Leaderboard.ParseIgnoresTail | supabase/functions/leaderboard/index.ts:27 | text after the digits is ignored (`12abc` is 12) |
| Leaderboard.EffectiveLimit | supabase/functions/leaderboard/index.ts:27 | the page size is always within 1..100 |
| Leaderboard.EffectiveLimitCases | supabase/functions/leaderboard/index.ts:26-27 | missing, empty, `NaN` or 0 gives 50; negative gives 1; above 100 gives 100; in range is kept |
| Leaderboard.DefaultLimitValue | supabase/functions/leaderboard/index.ts:27 | the default `'50'` reads as 50 |
| Leaderboard.EffectiveLimitOfNumber | supabase/functions/leaderboard/index.ts:27 | a written number n gives min(n, 100), or 50 for 0; a negative one gives 1 |
| Leaderboard.SortBy | supabase/functions/leaderboard/index.ts:25-30 | the sort is always valid: the parameter when whitelisted, `peak_score` otherwise |
| Leaderboard.HandleSpec | supabase/functions/leaderboard/index.ts:12-67 | 204 for OPTIONS, 405 for any other non-GET; the RPC always gets a valid sort and a size in 1..100; any failure gives empty entries, 0 people and an error; success passes `data \|\| []` and `count \|\| 0` |
| Tiers.TableShape | src/lib/tiers.ts:3-88 | six tiers, contiguous ranges, increasing `minScore`, stars 1..5 non-decreasing |
| Tiers.TierIndexFrom | src/lib/tiers.ts:91-93 | the downward scan finds the last tier whose `minScore` the score reaches |
| Tiers.TierForScore | src/lib/tiers.ts:90-95 | the result is a tier of the table |
| Tiers.TierForScoreRanges | src/lib/tiers.ts:90-95 | a score in a tier's range gets that tier; below 0 Normie; 201 and beyond Mythic |
| Tiers.GetTierForScore | src/lib/tiers.ts:90-95 | the loop computes `TierForScore` |
| Tiers.StarDisplay | src/lib/tiers.ts:97-99 | defined exactly for 0..5 stars (`repeat` throws otherwise) |
| Tiers.Stars | src/lib/tiers.ts:98 | n copies of the star character |
| Tiers.StarDisplaySpec | src/lib/tiers.ts:98 | five characters: `stars` full stars, then empty ones |
| Tiers.TierStarsDisplay | src/lib/tiers.ts:98 | every tier's own star count displays |
| Tiers.MythicIffScore | src/lib/tiers.ts:101-103 | a card is Mythic exactly when its score is 201 or more |
| Headlines.LengthBonus | src/lib/headlines.ts:74 | the bonus is at most 5, and 0 up to 100 units |
| Headlines.LengthBonusSteps | src/lib/headlines.ts:74 | positive exactly from 120 units, 5 from 200: `min(floor((len - 100) / 20), 5)` |
| Headlines.Matched | src/lib/headlines.ts:65-71 | no more matches than words |
| Headlines.MatchedSpec | src/lib/headlines.ts:65-71 | the matches keep list order and are exactly the words the lower-cased headline includes |
| Headlines.BuzzwordFlags | src/lib/headlines.ts:69 | one `"word" detected` flag per match, in order |
| Headlines.AnalyzeWithSpec | src/lib/headlines.ts:50-91 | pipes counted, buzzwords each once in order, bonus ≤ 5, total = 3·pipes + 2·emoji + 5·buzzwords + bonus, one flag per non-zero counter and per buzzword |
| Headlines.AnalyzeSpec | src/lib/headlines.ts:50-91 | the same for the `BUZZWORDS` list |
| Headlines.PlainHeadline | src/lib/headlines.ts:50-91 | a headline with no pipe, emoji or buzzword and at most 100 units scores 0 and raises no flag |
| Headlines.FindBuzzwords | src/lib/headlines.ts:65-71 | the loop counts and flags exactly the matches |
| Headlines.AnalyzeHeadline | src/lib/headlines.ts:50-91 | the imperative analysis computes `Analyze` |
| Headlines.AnalyzeHeadlineWith | src/lib/headlines.ts:50-91 | the same over any word list |
| Headlines.PushFlags | src/lib/headlines.ts:56-75 | the `flags.push` calls give pipe, emoji, buzzword and length flags in that order, each only when positive |
| Scoring.ClassEmojiInjective | src/lib/scoring.ts:6-18 | no two classes share an emoji |
| Scoring.Find | src/lib/scoring.ts:26 | `find` returns the first row with the id, or none when no row has it |
| Scoring.TagsOfUnknown | src/lib/scoring.ts:27 | unknown ids contribute no tag |
| Scoring.Distinct | src/lib/scoring.ts:23-31 | the keys of `tagCounts` are the tags seen, each once |
| Scoring.FirstIndex | src/lib/scoring.ts:36 | the first position of a class among the tags |
| Scoring.DistinctOrder | src/lib/scoring.ts:36 | `Object.entries` lists the keys in first-insertion order |
| Scoring.WinnerOfSpec | src/lib/scoring.ts:33-41 | the loop ends with the maximum count; a positive one belongs to its earliest key, otherwise Generic Professional |
| Scoring.AssignClassSpec | src/lib/scoring.ts:20-44 | without tags Generic Professional; otherwise a most frequent tag, the earliest-seen among ties |
| Scoring.WinnerOfTags | src/lib/scoring.ts:33-41 | over first-occurrence order the winner is a most frequent tag, the earliest of them |
| Scoring.WinnerIsMax | src/lib/scoring.ts:33-41 | the winner is a tag of the input that no other tag outnumbers |
| Scoring.WinnerIsEarliest | src/lib/scoring.ts:36-39 | `count > maxCount` keeps the earliest-seen class among equally frequent ones |
| Scoring.UnknownIdsGeneric | src/lib/scoring.ts:26-27 | ids the table does not know give Generic Professional |
| Scoring.AddKnownTag | src/lib/scoring.ts:29 | incrementing an existing count keeps counts and key order right |
| Scoring.AddNewTag | src/lib/scoring.ts:29 | a new tag gets count 1 and becomes the last key |
| Scoring.CountBehaviorTags | src/lib/scoring.ts:28-30 | the inner loop adds one behaviour's tags to the counts |
| Scoring.CountTags | src/lib/scoring.ts:25-31 | the counting loops give the counts and key order of all tags |
| Scoring.PickWinner | src/lib/scoring.ts:33-41 | the winner loop computes `WinnerOf` |
| Scoring.RunAssignClass | src/lib/scoring.ts:20-44 | the loops compute `AssignClass` |
| Scoring.SelectedSpec | src/lib/scoring.ts:51 | the filter keeps, in table order, exactly the rows whose id is listed |
| Scoring.SelectedBySet | src/lib/scoring.ts:51 | the filter depends only on which ids are listed |
| Scoring.MaxPointsSpec | src/lib/scoring.ts:55 | the reduce is ≥ 0, no row exceeds it, and a positive value is some row's points |
| Scoring.SelectionBonus | src/lib/scoring.ts:56 | 4 per row up to 20 |
| Scoring.Stats | src/lib/scoring.ts:46-74 | each stat is within 0..99 |
| Scoring.HustleReddit | src/lib/scoring.ts:71 | Reddit posts add exactly 15 hustle up to the cap and change no other stat |
| Scoring.StatsBySet | src/lib/scoring.ts:51 | listing ids twice or in another order changes no stat |
| Scoring.StatsOfNothing | src/lib/scoring.ts:56-71 | with no behaviour the stats come from the headline bonus and Reddit alone |
| Scoring.CringeSpec | src/lib/scoring.ts:54-56 | `round(h/20·70 + bonus)` is 3.5 per point, rounded half up, plus the selection bonus |
| Scoring.BehaviorScoreAppend | src/lib/scoring.ts:78-82 | the points of two id lists add up |
| Scoring.BehaviorScoreTwice | src/lib/scoring.ts:79-81 | a repeated id counts again |
| Scoring.BehaviorScoreUnknown | src/lib/scoring.ts:81 | unknown ids add nothing |
| Scoring.SumBehaviorPoints | src/lib/scoring.ts:78-82 | the summing loop computes `BehaviorScore` |
| Scoring.HeadlineOfSpec | src/lib/scoring.ts:85-87 | a blank headline adds nothing and raises no flag; any other is analysed |
| Scoring.CalculateScoreTotal | src/lib/scoring.ts:76-111 | total = behaviour points + headline bonus + 25 with Reddit posts; `behaviorCount` counts repetitions |
| Scoring.ScoreTier | src/lib/scoring.ts:96-98 | the tier is the total's (Mythic exactly from 201); the class is `assignClass`'s with its own emoji |
| Scoring.ScoreStats | src/lib/scoring.ts:99 | the stats are within 0..99, with at least 15 hustle when Reddit posts exist |
| Scoring.EmptyInputScore | src/lib/scoring.ts:76-111 | no behaviours, a blank headline and no posts give 0, Normie, Generic Professional |
| Scoring.RunCalculateScore | src/lib/scoring.ts:76-111 | the imperative `calculateScore` computes `CalculateScore` |
| Scoring.ScoreOf | src/lib/scoring.ts:78-110 | the rest of `calculateScore` computes `ScoreWith` |

## Left out

- Network, database and vision calls are oracle parameters: their HTTP details, headers, URLs, encodings and retries are not modelled.
- `JSON.parse` of the vision reply is a parameter. So is the rest of `response.json()`, for the Reddit, PullPush and vision bodies.
- The emoji regular expression (`\p{Emoji_Presentation}`/`\p{Extended_Pictographic}`) is not modelled. The emoji count is given to the headline analysis as a parameter, and `Text.Utf16Length` takes the code-unit count per character from a two-unit test on code points above U+FFFF.
- Base64 encoding of the image is not modelled: the payload carries the raw bytes.
- Sleeps and rate-limit delays are left out, because they change no state: the 1 s between pages, the 500 ms between vision calls, and the pause after every tenth HEAD request in `hide-flagged.ts`.
- Console output, the `sync_log` inserts, `duration_ms`, the `errors` array and the CORS headers are not modelled. The clock is the `now` string parameter.
- Stdin key reading is a `keys(i)` parameter; `process.exit` is the `MissingKey` outcome.
- `src/lib/behaviors.ts` is not part of this model: the behaviour table is a parameter `bs`.
- The `get_leaderboard` RPC and the people-count query are database-side, so they are parameters.
- Label, emoji and colour texts (`CLASS_EMOJIS`, tier colours) take part only as constants.
- Scoring.CringeSpec: `Math.round` over floating point is modelled as exact rational rounding half up. Floating-point error in `h / 20 * 70` is not modelled.
- Text.ToLower: `toLowerCase` is modelled on ASCII letters only. Non-ASCII case mappings are left out, and with them the case-insensitivity of Postgres `ilike` outside ASCII (the queries are parameters anyway).
- RedditSearch.Search: the `catch` of the handler is not modelled as a separate outcome. Query failures are a `None` data result, which the code reads as `data || []`.
- HideFlagged.Visit: the no-image and blank-name branches of the ladder are one test. They differ only in their log message.
- Ingest.UpsertBatch: the count adds the number of rows, which equals `batch.length`, since `map` keeps the length.
- Ingest.BatchTurn: apart from a repeated id, whether the database accepts batch `k` is the parameter `ok(k)`. Constraint violations and connection errors are not modelled one by one.
- Loop methods work on immutable `seq` values: the in-place `Array.prototype.sort` and `push` are modelled as value functions (`SortByScore`, `+ [x]`), so aliasing of those arrays is not captured.
