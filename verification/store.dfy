/** The abstract relational store behind the `Media` model: the `media` table,
    the `mediaTag` catalog and the `media_mediaTag` join table, plus the
    relation query that loads a media's tags (`getTags`, and the `tags` eager load). */
module Store {
  import opened Wrappers
  import opened Lists

  type MediaId = int
  type TagId = int
  type ProjectId = int
  type UserId = int

  /** A row of the tag catalog as the relation query returns it. */
  datatype Tag = Tag(id: TagId, name: string)

  /** The stored columns of one media row (the key `id` is kept apart). */
  datatype MediaRow = MediaRow(
    name: string,
    file: string,
    thumbnail: Option<string>,
    mimeType: string,
    size: int,
    width: int,
    height: int,
    description: string,
    projectId: ProjectId,
    userId: UserId,
    createdAt: Option<string>,
    modifiedAt: Option<string>)

  /** A model instance: a row with its id and, when eagerly fetched, its tags. */
  datatype Media = Media(id: MediaId, row: MediaRow, tags: Option<seq<Tag>>)

  /** One row of the many-to-many join table (`mediaId`, `mediaTagId`). */
  datatype Link = Link(mediaId: MediaId, tagId: TagId)

  /** The whole store: media rows by id, tag names by tag id, and the join table. */
  datatype Db = Db(media: map<MediaId, MediaRow>, tagNames: map<TagId, string>, links: set<Link>)

  /** The ids of the tags joined to media `m`. */
  function LinkedTagIds(links: set<Link>, m: MediaId): set<TagId> {
    set l | l in links && l.mediaId == m :: l.tagId
  }

  /** Every join row points at a catalog entry (the store's foreign key). */
  predicate LinksResolve(db: Db) {
    forall l :: l in db.links ==> l.tagId in db.tagNames
  }

  /** The ids of a list of tags, in order (`tags.map(tag => tag.id)`). */
  function Ids(tags: seq<Tag>): (r: seq<TagId>)
    ensures |r| == |tags|
    ensures forall i :: 0 <= i < |tags| ==> r[i] == tags[i].id
  {
    if tags == [] then [] else [tags[0].id] + Ids(tags[1..])
  }

  /** The tags related to media `m`: every catalog entry joined to `m`, once each,
      in an order the store chooses. */
  method RelatedTags(db: Db, m: MediaId) returns (tags: seq<Tag>)
    ensures forall i :: 0 <= i < |tags| ==> tags[i].id in db.tagNames && tags[i].name == db.tagNames[tags[i].id]
    ensures Distinct(Ids(tags))
    ensures forall t :: t in Ids(tags) <==> t in LinkedTagIds(db.links, m) && t in db.tagNames
  {
    var pending := LinkedTagIds(db.links, m) * db.tagNames.Keys;
    tags := [];
    while pending != {}
      invariant pending <= db.tagNames.Keys
      invariant pending !! Elems(Ids(tags))
      invariant pending + Elems(Ids(tags)) == LinkedTagIds(db.links, m) * db.tagNames.Keys
      invariant Distinct(Ids(tags))
      invariant forall i :: 0 <= i < |tags| ==> tags[i].id in db.tagNames && tags[i].name == db.tagNames[tags[i].id]
      decreases pending
    {
      var t := Pick(pending);
      var tags' := tags + [Tag(t, db.tagNames[t])];
      assert Ids(tags') == Ids(tags) + [t];
      tags := tags';
      pending := pending - {t};
    }
    forall t ensures t in Ids(tags) <==> t in LinkedTagIds(db.links, m) && t in db.tagNames {
      assert t in Ids(tags) <==> t in Elems(Ids(tags));
    }
  }

  /** The row invariants the schema imposes on stored columns. */
  predicate WellFormed(row: MediaRow) {
    && |row.name| <= 512
    && |row.file| <= 512
    && (row.thumbnail.Some? ==> |row.thumbnail.value| <= 512)
    && |row.mimeType| <= 128
    && row.width >= 0
    && row.height >= 0
    && |row.description| <= 64
  }
}
