/** The project-scoped queries of `Media`: fetch every media of a project with
    its tags (`getInProject`) and delete listed media of one project (`bulkDelete`). */
module Queries {
  import opened Wrappers
  import opened Lists
  import opened Store

  /** The rows of project `p`, keyed by media id. */
  function ProjectRows(media: map<MediaId, MediaRow>, p: ProjectId): map<MediaId, MediaRow> {
    map id | id in media && media[id].projectId == p :: media[id]
  }

  /** The ids of a list of model instances, in order. */
  function MediaIds(rows: seq<Media>): seq<MediaId> {
    seq(|rows|, i requires 0 <= i < |rows| => rows[i].id)
  }

  /** `r` is the stored row `r.id` with its tags loaded: every catalog tag
      joined to it, once each. */
  ghost predicate Loaded(db: Db, r: Media) {
    && r.id in db.media
    && r.row == db.media[r.id]
    && r.tags.Some?
    && Distinct(Ids(r.tags.value))
    && forall t :: t in Ids(r.tags.value) <==> t in LinkedTagIds(db.links, r.id) && t in db.tagNames
  }

  /** `rows` lists, once each, the ids of `wanted` not left in `pending`, and
      every listed row is a loaded row of project `p`. */
  ghost predicate Progress(db: Db, p: ProjectId, wanted: set<MediaId>, pending: set<MediaId>, rows: seq<Media>) {
    && pending !! Elems(MediaIds(rows))
    && pending + Elems(MediaIds(rows)) == wanted
    && Distinct(MediaIds(rows))
    && forall i :: 0 <= i < |rows| ==> Loaded(db, rows[i]) && rows[i].row.projectId == p
  }

  lemma ProgressStep(db: Db, p: ProjectId, wanted: set<MediaId>, pending: set<MediaId>, rows: seq<Media>, r: Media)
    requires Progress(db, p, wanted, pending, rows)
    requires r.id in pending && Loaded(db, r) && r.row.projectId == p
    ensures Progress(db, p, wanted, pending - {r.id}, rows + [r])
  {
    assert MediaIds(rows + [r]) == MediaIds(rows) + [r.id];
  }

  /** `getInProject(p)`: every media of project `p` exactly once, each with its
      tags eagerly loaded, in an order the store chooses. */
  method GetInProject(db: Db, p: ProjectId) returns (rows: seq<Media>)
    ensures forall i :: 0 <= i < |rows| ==> Loaded(db, rows[i]) && rows[i].row.projectId == p
    ensures Distinct(MediaIds(rows))
    ensures forall id :: id in MediaIds(rows) <==> id in db.media && db.media[id].projectId == p
    ensures |rows| == |ProjectRows(db.media, p)|
  {
    var wanted := ProjectRows(db.media, p).Keys;
    var pending := wanted;
    rows := [];
    while pending != {}
      invariant Progress(db, p, wanted, pending, rows)
      decreases pending
    {
      var id := Pick(pending);
      var tags := RelatedTags(db, id);
      var r := Media(id, db.media[id], Some(tags));
      ProgressStep(db, p, wanted, pending, rows, r);
      rows := rows + [r];
      pending := pending - {id};
    }
    forall id ensures id in MediaIds(rows) <==> id in db.media && db.media[id].projectId == p {
      assert id in MediaIds(rows) <==> id in Elems(MediaIds(rows));
    }
    CountRows(rows, ProjectRows(db.media, p));
  }

  lemma CountRows(rows: seq<Media>, table: map<MediaId, MediaRow>)
    requires Distinct(MediaIds(rows)) && Elems(MediaIds(rows)) == table.Keys
    ensures |rows| == |table|
  {
    DistinctCardinality(MediaIds(rows));
  }

  /** The table after a delete, and how many rows went. */
  datatype Deletion = Deletion(media: map<MediaId, MediaRow>, count: nat)

  /** `bulkDelete(ids, p)`: delete the rows whose id is listed AND whose project
      is `p`; the count is the number of rows removed. */
  function BulkDelete(media: map<MediaId, MediaRow>, ids: seq<MediaId>, p: ProjectId): (r: Deletion)
    ensures forall id :: id in r.media <==> id in media && !(id in ids && media[id].projectId == p)
    ensures forall id :: id in r.media ==> r.media[id] == media[id]
    ensures r.count == |media| - |r.media|
    ensures r.count <= |Elems(ids)|
  {
    var doomed := set id | id in media && id in ids && media[id].projectId == p;
    var kept := media - doomed;
    assert kept.Keys == media.Keys - doomed;
    assert doomed <= media.Keys;
    SubsetCardinality(doomed, Elems(ids));
    SubsetCardinality(doomed, media.Keys);
    assert |media.Keys| == |kept.Keys| + |doomed| by {
      assert media.Keys == kept.Keys + doomed;
      assert kept.Keys !! doomed;
    }
    Deletion(kept, |doomed|)
  }

  lemma {:induction false} SubsetCardinality<T>(a: set<T>, b: set<T>)
    requires a <= b
    ensures |a| <= |b|
  {
    if a != {} {
      var x :| x in a;
      SubsetCardinality(a - {x}, b - {x});
    }
  }

  /** Deleting the same ids again removes nothing. */
  lemma BulkDeleteIdempotent(media: map<MediaId, MediaRow>, ids: seq<MediaId>, p: ProjectId)
    ensures var once := BulkDelete(media, ids, p);
            BulkDelete(once.media, ids, p) == Deletion(once.media, 0)
  {
  }

  /** A delete scoped to project `p` leaves every other project's rows as they were,
      and takes from project `p` exactly the listed ids. */
  lemma BulkDeleteIsProjectScoped(media: map<MediaId, MediaRow>, ids: seq<MediaId>, p: ProjectId, q: ProjectId)
    ensures q != p ==> ProjectRows(BulkDelete(media, ids, p).media, q) == ProjectRows(media, q)
    ensures ProjectRows(BulkDelete(media, ids, p).media, p) == ProjectRows(media, p) - Elems(ids)
  {
  }
}
