/** The `reddit_posts` table as the sync jobs and the moderation scripts use
    it: a map from post id to the stored record. An upsert on conflict `id`
    overwrites the columns it supplies and leaves the identity and
    moderation columns (`extracted_name`, `extracted_headline`, `hidden`) as
    they were; a new row starts with no identity and not hidden. */
module PostStore {
  import opened Common

  /** One row of an upsert batch: the columns the sync jobs supply. */
  datatype Row = Row(
    id: string,
    title: string,
    url: string,
    score: int,
    createdUtc: int,
    author: string,
    imageUrl: Option<string>,
    syncedAt: string)

  /** A stored post. */
  datatype StoredPost = StoredPost(
    title: string,
    url: string,
    score: int,
    createdUtc: int,
    author: string,
    imageUrl: Option<string>,
    syncedAt: string,
    extractedName: Option<string>,
    extractedHeadline: Option<string>,
    hidden: bool)

  type Table = map<string, StoredPost>

  /** The record an upsert of `r` leaves, given what was stored under its id. */
  function Merge(prev: Option<StoredPost>, r: Row): StoredPost {
    match prev
    case None =>
      StoredPost(r.title, r.url, r.score, r.createdUtc, r.author, r.imageUrl, r.syncedAt, None, None, false)
    case Some(p) =>
      p.(title := r.title, url := r.url, score := r.score, createdUtc := r.createdUtc,
         author := r.author, imageUrl := r.imageUrl, syncedAt := r.syncedAt)
  }

  function Lookup(t: Table, id: string): Option<StoredPost> {
    if id in t then Some(t[id]) else None
  }

  /** Upserting the same id twice is upserting the second row once. */
  lemma MergeTwice(prev: Option<StoredPost>, r1: Row, r2: Row)
    ensures Merge(Some(Merge(prev, r1)), r2) == Merge(prev, r2)
  {
  }

  function UpsertOne(t: Table, r: Row): Table {
    t[r.id := Merge(Lookup(t, r.id), r)]
  }

  /** The ids of a batch. */
  function Ids(rows: seq<Row>): set<string> {
    set r | r in rows :: r.id
  }

  /** A batch upserted row by row, in order (a later row with the same id wins). */
  function UpsertRows(t: Table, rows: seq<Row>): Table
    decreases |rows|
  {
    if rows == [] then t else UpsertOne(UpsertRows(t, rows[..|rows| - 1]), rows[|rows| - 1])
  }

  /** The last row of the batch that carries `id`. */
  function LastRow(rows: seq<Row>, id: string): (r: Row)
    requires id in Ids(rows)
    ensures r in rows && r.id == id
    decreases |rows|
  {
    var last := rows[|rows| - 1];
    if last.id == id then last
    else
      assert id in Ids(rows[..|rows| - 1]) by {
        var x :| x in rows && x.id == id;
        var j :| 0 <= j < |rows| && rows[j] == x;
        assert j < |rows| - 1;
        assert rows[..|rows| - 1][j] == x;
      }
      LastRow(rows[..|rows| - 1], id)
  }

  /** No two rows of the batch carry the same id. Postgres refuses an
      `INSERT … ON CONFLICT DO UPDATE` that would touch one row twice, so
      only such batches are ever accepted. */
  predicate DistinctIds(rows: seq<Row>) {
    forall i, j :: 0 <= i < j < |rows| ==> rows[i].id != rows[j].id
  }

  /** In a batch without repeated ids, the last row carrying an id is its only row. */
  lemma {:induction false} LastRowDistinct(rows: seq<Row>, i: nat)
    requires DistinctIds(rows)
    requires i < |rows|
    ensures rows[i].id in Ids(rows)
    ensures LastRow(rows, rows[i].id) == rows[i]
    decreases |rows|
  {
    assert rows[i] in rows;
    var n := |rows| - 1;
    if i < n {
      assert rows[n].id != rows[i].id;
      var init := rows[..n];
      assert init[i] == rows[i];
      assert DistinctIds(init) by {
        forall a, b | 0 <= a < b < |init| ensures init[a].id != init[b].id {
          assert init[a] == rows[a] && init[b] == rows[b];
        }
      }
      LastRowDistinct(init, i);
    }
  }

  /** Upserting a batch without repeated ids stores every row of it, merged
      with what was stored under its id. */
  lemma UpsertRowsDistinct(t: Table, rows: seq<Row>)
    requires DistinctIds(rows)
    ensures forall i :: 0 <= i < |rows| ==>
      rows[i].id in UpsertRows(t, rows) && UpsertRows(t, rows)[rows[i].id] == Merge(Lookup(t, rows[i].id), rows[i])
  {
    UpsertRowsSpec(t, rows);
    forall i | 0 <= i < |rows|
      ensures rows[i].id in UpsertRows(t, rows) && UpsertRows(t, rows)[rows[i].id] == Merge(Lookup(t, rows[i].id), rows[i])
    {
      LastRowDistinct(rows, i);
    }
  }

  /** Upserting two batches one after the other is upserting their concatenation. */
  lemma {:induction false} UpsertRowsAppend(t: Table, a: seq<Row>, b: seq<Row>)
    ensures UpsertRows(t, a + b) == UpsertRows(UpsertRows(t, a), b)
    decreases |b|
  {
    if b != [] {
      assert (a + b)[..|a + b| - 1] == a + b[..|b| - 1];
      assert (a + b)[|a + b| - 1] == b[|b| - 1];
      UpsertRowsAppend(t, a, b[..|b| - 1]);
    } else {
      assert a + b == a;
    }
  }

  /** What an upsert leaves: the old ids plus the batch's; an id outside the
      batch keeps its record; an id in the batch gets the columns of its last
      row in the batch, and keeps the identity and moderation columns it had
      (none and not hidden for a new id). */
  lemma {:induction false} UpsertRowsSpec(t: Table, rows: seq<Row>)
    ensures UpsertRows(t, rows).Keys == t.Keys + Ids(rows)
    ensures forall k :: k in t && k !in Ids(rows) ==> UpsertRows(t, rows)[k] == t[k]
    ensures forall k :: k in Ids(rows) ==> UpsertRows(t, rows)[k] == Merge(Lookup(t, k), LastRow(rows, k))
    decreases |rows|
  {
    if rows != [] {
      var init := rows[..|rows| - 1];
      var last := rows[|rows| - 1];
      UpsertRowsSpec(t, init);
      assert rows == init + [last];
      assert Ids(rows) == Ids(init) + {last.id};
      var u := UpsertRows(t, init);
      forall k | k in Ids(rows)
        ensures UpsertRows(t, rows)[k] == Merge(Lookup(t, k), LastRow(rows, k))
      {
        if k == last.id {
          if k in Ids(init) {
            MergeTwice(Lookup(t, k), LastRow(init, k), last);
          }
        }
      }
    }
  }

  /** An upsert keeps every stored id and adds exactly the batch's ids. */
  lemma UpsertRowsKeys(t: Table, rows: seq<Row>)
    ensures UpsertRows(t, rows).Keys == t.Keys + Ids(rows)
  {
    UpsertRowsSpec(t, rows);
  }

  /** An upsert never changes the identity or moderation columns of a stored
      post; in particular it never unhides one. */
  lemma UpsertPreservesModeration(t: Table, rows: seq<Row>)
    ensures t.Keys <= UpsertRows(t, rows).Keys
    ensures forall k :: k in t ==>
      && UpsertRows(t, rows)[k].hidden == t[k].hidden
      && UpsertRows(t, rows)[k].extractedName == t[k].extractedName
      && UpsertRows(t, rows)[k].extractedHeadline == t[k].extractedHeadline
    ensures forall k :: k in UpsertRows(t, rows) && k !in t ==>
      !UpsertRows(t, rows)[k].hidden && UpsertRows(t, rows)[k].extractedName.None?
  {
    UpsertRowsSpec(t, rows);
  }

  /** Re-ingesting the same batch changes nothing: upserts are idempotent. */
  lemma UpsertIdempotent(t: Table, rows: seq<Row>)
    ensures UpsertRows(UpsertRows(t, rows), rows) == UpsertRows(t, rows)
  {
    var u := UpsertRows(t, rows);
    UpsertRowsSpec(t, rows);
    UpsertRowsSpec(u, rows);
    forall k | k in Ids(rows)
      ensures UpsertRows(u, rows)[k] == u[k]
    {
      MergeTwice(Lookup(t, k), LastRow(rows, k), LastRow(rows, k));
    }
  }

  /** `update({ extracted_name, extracted_headline }).eq('id', id)`: no change
      when the id is not stored. */
  function SetIdentity(t: Table, id: string, name: Option<string>, headline: Option<string>): Table {
    if id in t then t[id := t[id].(extractedName := name, extractedHeadline := headline)] else t
  }

  /** An identity update touches only the two identity columns of that one post. */
  lemma SetIdentitySpec(t: Table, id: string, name: Option<string>, headline: Option<string>)
    ensures SetIdentity(t, id, name, headline).Keys == t.Keys
    ensures forall k :: k in t && k != id ==> SetIdentity(t, id, name, headline)[k] == t[k]
    ensures id in t ==>
      SetIdentity(t, id, name, headline)[id] == t[id].(extractedName := name, extractedHeadline := headline)
  {
  }

  /** `update({ hidden: true }).in('id', ids)`. */
  function HideIds(t: Table, ids: set<string>): (r: Table)
    ensures r.Keys == t.Keys
  {
    map k | k in t :: if k in ids then t[k].(hidden := true) else t[k]
  }

  /** Hiding sets `hidden` on exactly the given stored ids, changes nothing
      else, and never unhides a post. */
  lemma HideIdsSpec(t: Table, ids: set<string>)
    ensures forall k :: k in t ==> HideIds(t, ids)[k].hidden == (t[k].hidden || k in ids)
    ensures forall k :: k in t ==> HideIds(t, ids)[k].(hidden := t[k].hidden) == t[k]
    ensures forall k :: k in t && t[k].hidden ==> HideIds(t, ids)[k].hidden
  {
  }

  /** Hiding the same ids again changes nothing. */
  lemma HideIdsIdempotent(t: Table, ids: set<string>)
    ensures HideIds(HideIds(t, ids), ids) == HideIds(t, ids)
  {
  }

  /** Hiding one set of ids and then another is hiding both at once. */
  lemma HideIdsUnion(t: Table, a: set<string>, b: set<string>)
    ensures HideIds(HideIds(t, a), b) == HideIds(t, a + b)
  {
  }

  /** The stored ids that are hidden. */
  function HiddenIds(t: Table): (r: set<string>)
    ensures r <= t.Keys
  {
    set k | k in t && t[k].hidden
  }

  /** After hiding, the hidden ids are the old ones plus the requested stored ids. */
  lemma HiddenIdsAfterHide(t: Table, ids: set<string>)
    ensures HiddenIds(HideIds(t, ids)) == HiddenIds(t) + (ids * t.Keys)
  {
    HideIdsSpec(t, ids);
  }

  /** The table held by the database. */
  class Store {
    var rows: Table

    constructor(init: Table)
      ensures rows == init
    {
      rows := init;
    }

    /** `upsert(batch, { onConflict: 'id' })` that the database accepted. */
    method Upsert(batch: seq<Row>)
      modifies this
      ensures rows == UpsertRows(old(rows), batch)
    {
      var i := 0;
      while i < |batch|
        invariant 0 <= i <= |batch|
        invariant rows == UpsertRows(old(rows), batch[..i])
      {
        assert batch[..i + 1][..i] == batch[..i];
        rows := UpsertOne(rows, batch[i]);
        i := i + 1;
      }
      assert batch[..i] == batch;
    }

    /** An identity update that the database accepted. */
    method UpdateIdentity(id: string, name: Option<string>, headline: Option<string>)
      modifies this
      ensures rows == SetIdentity(old(rows), id, name, headline)
    {
      if id in rows {
        rows := rows[id := rows[id].(extractedName := name, extractedHeadline := headline)];
      }
    }

    /** `update({ hidden: true }).in('id', ids)` that the database accepted. */
    method Hide(ids: set<string>)
      modifies this
      ensures rows == HideIds(old(rows), ids)
    {
      rows := HideIds(rows, ids);
    }

    /** `delete().eq('id', id)` that the database accepted. */
    method Delete(id: string)
      modifies this
      ensures rows == old(rows) - {id}
    {
      rows := rows - {id};
    }
  }
}
