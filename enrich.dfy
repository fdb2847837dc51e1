/** Enrichment: load a post's image under the size limit with its media type,
    send it to the vision model, recover the JSON object from its reply and
    write the extracted name and headline back to the post. The image
    request, the vision call, `JSON.parse` and the database update are
    given as functions. */
module Enrich {
  import opened Common
  import opened Text
  import opened PostStore

  /** Images above 5 MiB are not sent. */
  const MAX_IMAGE_BYTES: nat := 5 * 1024 * 1024
  const DEFAULT_CONTENT_TYPE: string := "image/jpeg"

  // ---------------------------------------------------------------------------
  // Loading an image

  /** The image request: a thrown error, or a response with its status
      (`response.ok`), its `content-type` header and its body. */
  datatype ImageResponse = ImageThrew | ImageReply(ok: bool, contentType: Option<string>, body: seq<bv8>)

  /** What is sent to the vision model: the image bytes (base64-encoded on the
      wire) and their media type. */
  datatype ImagePayload = ImagePayload(bytes: seq<bv8>, mediaType: string)

  /** `s.split(';')[0]`: everything before the first `;`. */
  function BeforeSemicolon(s: string): (r: string)
    ensures r <= s
    ensures ';' !in r
    ensures |r| < |s| ==> s[|r|] == ';'
  {
    if s == [] || s[0] == ';' then [] else [s[0]] + BeforeSemicolon(s[1..])
  }

  /** The media type: the `content-type` header (`image/jpeg` when it is
      missing or empty) up to its first `;`, trimmed. */
  function MediaType(contentType: Option<string>): (r: string)
    ensures ';' !in r
    ensures r == [] || (!IsSpace(r[0]) && !IsSpace(r[|r| - 1]))
  {
    var header := if Truthy(contentType) then contentType.value else DEFAULT_CONTENT_TYPE;
    TrimChars(BeforeSemicolon(header));
    Trim(BeforeSemicolon(header))
  }

  /** A missing or empty header gives `image/jpeg`. */
  lemma MediaTypeDefault()
    ensures MediaType(None) == DEFAULT_CONTENT_TYPE
    ensures MediaType(Some("")) == DEFAULT_CONTENT_TYPE
  {
    var d := DEFAULT_CONTENT_TYPE;
    assert ';' !in d;
    assert !IsSpace(d[0]) && !IsSpace(d[|d| - 1]);
    MediaTypeBare(d);
    MediaTypeMissing(None);
    MediaTypeMissing(Some(""));
  }

  /** A missing or empty header is read as the default header. */
  lemma MediaTypeMissing(contentType: Option<string>)
    requires !Truthy(contentType)
    ensures MediaType(contentType) == MediaType(Some(DEFAULT_CONTENT_TYPE))
  {
  }

  /** A header without `;` and without white space at its ends is the media type itself. */
  lemma MediaTypeBare(header: string)
    requires header != "" && ';' !in header
    requires !IsSpace(header[0]) && !IsSpace(header[|header| - 1])
    ensures MediaType(Some(header)) == header
  {
    NoSemicolonKept(header);
    TrimNoSpace(header);
  }

  /** A parameter after `;` is dropped: `type; parameter` gives `type`, trimmed. */
  lemma MediaTypeDropsParameter(mediaType: string, parameter: string)
    requires ';' !in mediaType
    ensures MediaType(Some(mediaType + ";" + parameter)) == Trim(mediaType)
  {
    var h := mediaType + ";" + parameter;
    assert forall k :: 0 <= k < |mediaType| ==> h[k] == mediaType[k] && mediaType[k] in mediaType;
    BeforeSemicolonAt(h, |mediaType|);
    assert h[..|mediaType|] == mediaType;
  }

  /** A header without `;` is only trimmed. */
  lemma MediaTypePlain(header: string)
    requires header != "" && ';' !in header
    ensures MediaType(Some(header)) == Trim(header)
  {
    NoSemicolonKept(header);
  }

  lemma {:induction false} NoSemicolonKept(s: string)
    requires ';' !in s
    ensures BeforeSemicolon(s) == s
  {
    if s != [] {
      assert s[0] in s;
      assert forall c :: c in s[1..] ==> c in s;
      NoSemicolonKept(s[1..]);
    }
  }

  /** When the first `;` stands at `i`, what comes before it is `s[..i]`. */
  lemma BeforeSemicolonAt(s: string, i: nat)
    requires i < |s| && s[i] == ';' && forall k :: 0 <= k < i ==> s[k] != ';'
    ensures BeforeSemicolon(s) == s[..i]
  {
    var r := BeforeSemicolon(s);
    assert forall k :: 0 <= k < |r| ==> s[k] == r[k] && r[k] in r;
    assert |r| == i;
  }

  /** `fetchImageAsBase64`: an image for a response that was OK and not larger
      than 5 MiB; nothing for an error status, an oversized body or a thrown error. */
  function LoadImage(resp: ImageResponse): (r: Option<ImagePayload>)
    ensures r.Some? <==> (resp.ImageReply? && resp.ok && |resp.body| <= MAX_IMAGE_BYTES)
    ensures r.Some? ==> r.value.bytes == resp.body && r.value.mediaType == MediaType(resp.contentType)
    ensures r.Some? ==> |r.value.bytes| <= MAX_IMAGE_BYTES
  {
    match resp
    case ImageThrew => None
    case ImageReply(ok, contentType, body) =>
      if !ok then None
      else if |body| > MAX_IMAGE_BYTES then None
      else Some(ImagePayload(body, MediaType(contentType)))
  }

  /** An image of exactly 5 MiB is sent; one byte more is not. */
  lemma LoadImageLimit(body: seq<bv8>, contentType: Option<string>)
    ensures |body| == MAX_IMAGE_BYTES ==> LoadImage(ImageReply(true, contentType, body)).Some?
    ensures |body| == MAX_IMAGE_BYTES + 1 ==> LoadImage(ImageReply(true, contentType, body)).None?
  {
  }

  // ---------------------------------------------------------------------------
  // Recovering the JSON object from the reply

  /** The first position of `c` in `s`. */
  function FirstIndex(s: string, c: char): (r: Option<nat>)
    ensures r.Some? ==> r.value < |s| && s[r.value] == c && forall k :: 0 <= k < r.value ==> s[k] != c
    ensures r.None? ==> forall k :: 0 <= k < |s| ==> s[k] != c
  {
    if s == [] then None
    else if s[0] == c then Some(0)
    else
      match FirstIndex(s[1..], c)
      case None => None
      case Some(i) => Some(i + 1)
  }

  /** The last position of `c` in `s`. */
  function LastIndex(s: string, c: char): (r: Option<nat>)
    ensures r.Some? ==> r.value < |s| && s[r.value] == c && forall k :: r.value < k < |s| ==> s[k] != c
    ensures r.None? ==> forall k :: 0 <= k < |s| ==> s[k] != c
  {
    if s == [] then None
    else if s[|s| - 1] == c then Some(|s| - 1)
    else LastIndex(s[..|s| - 1], c)
  }

  /** `text.match(/\{[\s\S]*\}/)`: the leftmost `{` to the last `}` after it
      (the star is greedy), or no match. */
  function JsonSpan(text: string): (r: Option<string>)
    ensures r.Some? ==> |r.value| >= 2 && r.value[0] == '{' && r.value[|r.value| - 1] == '}'
  {
    match FirstIndex(text, '{')
    case None => None
    case Some(i) =>
      match LastIndex(text, '}')
      case None => None
      case Some(j) => if i < j then Some(text[i..j + 1]) else None
  }

  /** There is a match exactly when some `{` comes before some `}`; the match
      starts at the first `{` of the text and ends at its last `}`. */
  lemma JsonSpanSpec(text: string)
    ensures JsonSpan(text).Some? <==>
      exists i, j :: 0 <= i < j < |text| && text[i] == '{' && text[j] == '}'
    ensures JsonSpan(text).Some? ==>
      FirstIndex(text, '{').Some? && OccursAt(text, JsonSpan(text).value, FirstIndex(text, '{').value)
      && (forall k :: 0 <= k < FirstIndex(text, '{').value ==> text[k] != '{')
      && (forall k :: FirstIndex(text, '{').value + |JsonSpan(text).value| <= k < |text| ==> text[k] != '}')
  {
    if exists i, j :: 0 <= i < j < |text| && text[i] == '{' && text[j] == '}' {
      var i, j :| 0 <= i < j < |text| && text[i] == '{' && text[j] == '}';
      var fi := FirstIndex(text, '{');
      var lj := LastIndex(text, '}');
      assert fi.Some? && fi.value <= i;
      assert lj.Some? && lj.value >= j;
    }
  }

  /** The star is greedy: the match runs to the last `}`, past an earlier one. */
  lemma JsonSpanGreedy()
    ensures JsonSpan("a{b}c}d") == Some("{b}c}")
  {
    var t := "a{b}c}d";
    assert FirstIndex(t, '{') == Some(1) by {
      assert t[0] != '{' && t[1] == '{';
      assert FirstIndex(t[1..], '{') == Some(0);
    }
    assert LastIndex(t, '}') == Some(5) by {
      assert t[6] != '}';
      assert t[..6][5] == '}';
    }
    assert t[1..6] == "{b}c}";
  }

  // ---------------------------------------------------------------------------
  // The vision reply

  /** The vision call: a thrown error (the request or reading its body), a
      non-OK status, or the text of its first content block ("" when absent). */
  datatype VisionReply = VisionThrew | VisionNotOk | VisionText(text: string)

  /** The two fields of a parsed reply, as JSON gave them (None for null or absent). */
  datatype ParsedFields = ParsedFields(name: Option<string>, headline: Option<string>)

  /** `JSON.parse` of a candidate object: None when it throws. */
  type JsonParse = string -> Option<ParsedFields>

  datatype Identity = Identity(name: Option<string>, headline: Option<string>)

  const NoIdentity: Identity := Identity(None, None)

  /** What `extractNameFromImage` gives back: an identity, or an error it let
      through (which ends the job). */
  datatype Extraction = Extracted(identity: Identity) | ExtractionThrew

  /** `extractNameFromImage` with the API key set: a non-OK status, a reply
      without a `{`…`}` span or one that does not parse gives no identity;
      otherwise the parsed name and headline, with "" turned into none. */
  function ExtractIdentity(reply: VisionReply, parse: JsonParse): (e: Extraction)
    ensures e.Extracted? && e.identity.name.Some? ==> e.identity.name.value != ""
    ensures e.Extracted? && e.identity.headline.Some? ==> e.identity.headline.value != ""
    ensures e.ExtractionThrew? <==> reply.VisionThrew?
  {
    match reply
    case VisionThrew => ExtractionThrew
    case VisionNotOk => Extracted(NoIdentity)
    case VisionText(text) =>
      match JsonSpan(text)
      case None => Extracted(NoIdentity)
      case Some(span) =>
        match parse(span)
        case None => Extracted(NoIdentity)
        case Some(fields) => Extracted(Identity(OrNull(fields.name), OrNull(fields.headline)))
  }

  /** A name comes back only from an OK reply whose text holds a `{`…`}` span
      that parses to an object with a non-empty name, and it is that name. */
  lemma ExtractIdentityName(reply: VisionReply, parse: JsonParse)
    ensures var e := ExtractIdentity(reply, parse);
      e.Extracted? && e.identity.name.Some? <==>
        (reply.VisionText? && JsonSpan(reply.text).Some? && parse(JsonSpan(reply.text).value).Some?
         && Truthy(parse(JsonSpan(reply.text).value).value.name))
    ensures var e := ExtractIdentity(reply, parse);
      e.Extracted? && e.identity.name.Some? ==> e.identity.name == parse(JsonSpan(reply.text).value).value.name
  {
  }

  // ---------------------------------------------------------------------------
  // The OCR pass

  /** A row of the un-processed query: a post with an image and no name. */
  datatype OcrRow = OcrRow(id: string, imageUrl: string)

  /** The services the OCR pass talks to; `updateOk(id)` says whether the
      database accepts the identity update of that post. */
  datatype OcrEnv = OcrEnv(
    fetchImage: string -> ImageResponse,
    vision: ImagePayload -> VisionReply,
    parse: JsonParse,
    updateOk: string -> bool)

  /** What the OCR pass leaves: the table, the number of posts updated, and
      whether an error escaped from the vision call. */
  datatype OcrSummary = OcrSummary(table: Table, ocrd: nat, aborted: bool)

  /** What handling one row comes to: nothing written (no image, no name, or
      the update rejected), the identity written, or an escaped error. */
  datatype RowOutcome = Skipped | Updated(name: string, headline: Option<string>) | Threw

  /** One turn of the OCR loop, apart from the write itself. */
  function OcrRowOutcome(row: OcrRow, env: OcrEnv): (o: RowOutcome)
    ensures o.Updated? ==> o.name != "" && env.updateOk(row.id)
  {
    match LoadImage(env.fetchImage(row.imageUrl))
    case None => Skipped
    case Some(image) =>
      match ExtractIdentity(env.vision(image), env.parse)
      case ExtractionThrew => Threw
      case Extracted(identity) =>
        if identity.name.Some? && env.updateOk(row.id) then Updated(identity.name.value, identity.headline)
        else Skipped
  }

  /** A row is written exactly when its image loaded, the vision model gave a
      name and the database accepted the update; the job stops exactly when the
      image loaded and the vision call threw. */
  lemma OcrRowOutcomeCases(row: OcrRow, env: OcrEnv)
    ensures var image := LoadImage(env.fetchImage(row.imageUrl));
      OcrRowOutcome(row, env).Updated? <==>
        (image.Some? && ExtractIdentity(env.vision(image.value), env.parse).Extracted?
         && ExtractIdentity(env.vision(image.value), env.parse).identity.name.Some? && env.updateOk(row.id))
    ensures var image := LoadImage(env.fetchImage(row.imageUrl));
      OcrRowOutcome(row, env).Threw? <==> (image.Some? && env.vision(image.value).VisionThrew?)
  {
  }

  /** The OCR pass over the remaining rows with `ocrd` posts updated so far. */
  function OcrFrom(t: Table, rows: seq<OcrRow>, env: OcrEnv, ocrd: nat): OcrSummary
    decreases |rows|
  {
    if rows == [] then OcrSummary(t, ocrd, false)
    else
      match OcrRowOutcome(rows[0], env)
      case Threw => OcrSummary(t, ocrd, true)
      case Skipped => OcrFrom(t, rows[1..], env, ocrd)
      case Updated(name, headline) => OcrFrom(SetIdentity(t, rows[0].id, Some(name), headline), rows[1..], env, ocrd + 1)
  }

  /** The rows are what the un-processed query returns for `t`: stored posts
      with that image and no extracted name. */
  predicate Candidates(t: Table, rows: seq<OcrRow>) {
    forall i :: 0 <= i < |rows| ==>
      rows[i].id in t && t[rows[i].id].imageUrl == Some(rows[i].imageUrl) && t[rows[i].id].extractedName.None?
  }

  /** The ids of the rows. */
  function RowIds(rows: seq<OcrRow>): set<string> {
    set r | r in rows :: r.id
  }

  /** A position of the rows that carries `id`. */
  ghost function RowIndex(rows: seq<OcrRow>, id: string): (i: nat)
    requires id in RowIds(rows)
    ensures i < |rows| && rows[i].id == id
  {
    var r :| r in rows && r.id == id;
    var i :| 0 <= i < |rows| && rows[i] == r;
    i
  }

  /** At most one post is updated per row. */
  lemma {:induction false} OcrFromCount(t: Table, rows: seq<OcrRow>, env: OcrEnv, ocrd: nat)
    ensures ocrd <= OcrFrom(t, rows, env, ocrd).ocrd <= ocrd + |rows|
    decreases |rows|
  {
    if rows != [] {
      match OcrRowOutcome(rows[0], env)
      case Threw =>
      case Skipped =>
        OcrFromCount(t, rows[1..], env, ocrd);
      case Updated(name, headline) =>
        OcrFromCount(SetIdentity(t, rows[0].id, Some(name), headline), rows[1..], env, ocrd + 1);
    }
  }

  /** The OCR pass writes only identity columns, only of posts in the rows, and
      only a non-empty name: the stored ids, every other column and the
      `hidden` flag stay as they were. */
  lemma {:induction false} OcrFromEffect(t: Table, rows: seq<OcrRow>, env: OcrEnv, ocrd: nat)
    ensures OcrFrom(t, rows, env, ocrd).table.Keys == t.Keys
    ensures var s := OcrFrom(t, rows, env, ocrd).table;
      forall k :: k in t ==> s[k].(extractedName := t[k].extractedName, extractedHeadline := t[k].extractedHeadline) == t[k]
    ensures var s := OcrFrom(t, rows, env, ocrd).table;
      forall k :: k in t && s[k] != t[k] ==> k in RowIds(rows) && s[k].extractedName.Some? && s[k].extractedName.value != ""
    decreases |rows|
  {
    if rows != [] {
      var row := rows[0];
      assert RowIds(rows) == {row.id} + RowIds(rows[1..]) by {
        assert forall r :: r in rows <==> r == row || r in rows[1..];
      }
      match OcrRowOutcome(row, env)
      case Threw =>
      case Skipped =>
        OcrFromEffect(t, rows[1..], env, ocrd);
      case Updated(name, headline) =>
        var t1 := SetIdentity(t, row.id, Some(name), headline);
        OcrFromEffect(t1, rows[1..], env, ocrd + 1);
    }
  }

  /** Against what the un-processed query returns, every post the pass changes
      had an image and no name before, and has a name after. */
  lemma OcrOnlyCandidates(t: Table, rows: seq<OcrRow>, env: OcrEnv)
    requires Candidates(t, rows)
    ensures OcrFrom(t, rows, env, 0).table.Keys == t.Keys
    ensures var s := OcrFrom(t, rows, env, 0).table;
      forall k :: k in t && s[k] != t[k] ==>
        t[k].imageUrl.Some? && t[k].extractedName.None? && s[k].extractedName.Some?
  {
    OcrFromEffect(t, rows, env, 0);
    var s := OcrFrom(t, rows, env, 0).table;
    forall k | k in t && s[k] != t[k]
      ensures t[k].imageUrl.Some? && t[k].extractedName.None?
    {
      assert k in RowIds(rows);
      var i := RowIndex(rows, k);
      assert rows[i].id in t;
    }
  }

  /** The OCR loop: for each row, load its image (skip the row when that
      fails), ask the vision model, and write the identity when a name came back. */
  method OcrPass(store: Store, rows: seq<OcrRow>, env: OcrEnv) returns (ocrd: nat, aborted: bool)
    modifies store
    ensures OcrSummary(store.rows, ocrd, aborted) == OcrFrom(old(store.rows), rows, env, 0)
  {
    ghost var target := OcrFrom(store.rows, rows, env, 0);
    ocrd, aborted := 0, false;
    var i := 0;
    while i < |rows|
      invariant i <= |rows|
      invariant target == OcrFrom(store.rows, rows[i..], env, ocrd)
    {
      var row := rows[i];
      assert rows[i..][1..] == rows[i + 1..];
      var image := LoadImage(env.fetchImage(row.imageUrl));
      if image.None? {
        i := i + 1;
        continue;
      }
      var extracted := ExtractIdentity(env.vision(image.value), env.parse);
      if extracted.ExtractionThrew? {
        aborted := true;
        return;
      }
      var identity := extracted.identity;
      if identity.name.Some? && env.updateOk(row.id) {
        store.UpdateIdentity(row.id, identity.name, identity.headline);
        ocrd := ocrd + 1;
      }
      i := i + 1;
    }
  }

  // ---------------------------------------------------------------------------
  // The OCR phase

  /** The un-processed query (`image_url` not null, `extracted_name` null,
      newest first) against the table; None when it fails. */
  type UnOcrdQuery = Table -> Option<seq<OcrRow>>

  /** The OCR phase: nothing without an API key or when the query fails;
      otherwise the pass over at most `limit` rows. */
  function OcrPhase(t: Table, hasApiKey: bool, query: UnOcrdQuery, limit: nat, env: OcrEnv): OcrSummary {
    if !hasApiKey then OcrSummary(t, 0, false)
    else
      match query(t)
      case None => OcrSummary(t, 0, false)
      case Some(rows) => OcrFrom(t, Take(rows, limit), env, 0)
  }

  /** The phase updates at most `limit` posts, only their identity columns,
      only with a non-empty name, only rows the query returned; and, when the
      query returns what it promises, only posts that had an image and no name. */
  lemma OcrPhaseProperties(t: Table, hasApiKey: bool, query: UnOcrdQuery, limit: nat, env: OcrEnv)
    ensures var o := OcrPhase(t, hasApiKey, query, limit, env);
      && o.ocrd <= limit
      && o.table.Keys == t.Keys
      && (forall k :: k in t ==> o.table[k].(extractedName := t[k].extractedName, extractedHeadline := t[k].extractedHeadline) == t[k])
      && (forall k :: k in t && o.table[k] != t[k] ==>
            hasApiKey && query(t).Some? && k in RowIds(Take(query(t).value, limit))
            && o.table[k].extractedName.Some? && o.table[k].extractedName.value != "")
    ensures var o := OcrPhase(t, hasApiKey, query, limit, env);
      !hasApiKey || query(t).None? ==> o == OcrSummary(t, 0, false)
    ensures var o := OcrPhase(t, hasApiKey, query, limit, env);
      hasApiKey && query(t).Some? && Candidates(t, query(t).value) ==>
        forall k :: k in t && o.table[k] != t[k] ==> t[k].imageUrl.Some? && t[k].extractedName.None?
  {
    if hasApiKey && query(t).Some? {
      var rows := Take(query(t).value, limit);
      OcrFromCount(t, rows, env, 0);
      OcrFromEffect(t, rows, env, 0);
      if Candidates(t, query(t).value) {
        assert Candidates(t, rows) by {
          forall i | 0 <= i < |rows| ensures rows[i] == query(t).value[i] {}
        }
        OcrOnlyCandidates(t, rows, env);
      }
    }
  }

  /** `if (ANTHROPIC_API_KEY) { query; loop }`. */
  method RunOcrPhase(store: Store, hasApiKey: bool, query: UnOcrdQuery, limit: nat, env: OcrEnv)
      returns (ocrd: nat, aborted: bool)
    modifies store
    ensures OcrSummary(store.rows, ocrd, aborted) == OcrPhase(old(store.rows), hasApiKey, query, limit, env)
  {
    if !hasApiKey {
      return 0, false;
    }
    var rows := query(store.rows);
    if rows.None? {
      return 0, false;
    }
    ocrd, aborted := OcrPass(store, Take(rows.value, limit), env);
  }
}
