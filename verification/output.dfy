/** Output shaping (`Media.prototype.toJSON`): stored paths become URLs against
    the media base URL, and loaded tags become their names. The URL join is the
    host's `url.resolve`, passed in uninterpreted together with the base URL. */
module Output {
  import opened Wrappers
  import opened Store

  /** The JSON form of a media: the stored columns with `file`/`thumbnail`
      rewritten, and tag names in place of tag objects when tags were loaded. */
  datatype MediaJson = MediaJson(
    id: MediaId,
    name: string,
    file: string,
    thumbnail: Option<string>,
    mimeType: string,
    size: int,
    width: int,
    height: int,
    description: string,
    projectId: ProjectId,
    userId: UserId,
    createdAt: Option<string>,
    modifiedAt: Option<string>,
    tags: Option<seq<string>>)

  /** JavaScript truthiness of a nullable string column: set and not empty. */
  predicate Truthy(s: Option<string>) {
    s.Some? && s.value != ""
  }

  /** The names of `tags`, one per tag, in order (`tags.map(tag => tag.name)`). */
  function Names(tags: seq<Tag>): (r: seq<string>)
    ensures |r| == |tags|
    ensures forall i :: 0 <= i < |tags| ==> r[i] == tags[i].name
  {
    if tags == [] then [] else [tags[0].name] + Names(tags[1..])
  }

  /** `toJSON()` with `mediaUrl` standing for the configured base URL. */
  function ToJson(m: Media, mediaUrl: string, resolve: (string, string) -> string): (j: MediaJson)
    // file is always resolved
    ensures j.file == resolve(mediaUrl, m.row.file)
    // thumbnail is resolved only when it is set and non-empty
    ensures Truthy(m.row.thumbnail) ==> j.thumbnail == Some(resolve(mediaUrl, m.row.thumbnail.value))
    ensures !Truthy(m.row.thumbnail) ==> j.thumbnail == m.row.thumbnail
    // loaded tags become their names, same length, same order
    ensures j.tags.Some? <==> m.tags.Some?
    ensures m.tags.Some? ==> |j.tags.value| == |m.tags.value|
    ensures m.tags.Some? ==> forall i :: 0 <= i < |m.tags.value| ==> j.tags.value[i] == m.tags.value[i].name
    // every other attribute is passed through
    ensures j.id == m.id && j.name == m.row.name && j.mimeType == m.row.mimeType
    ensures j.size == m.row.size && j.width == m.row.width && j.height == m.row.height
    ensures j.description == m.row.description
    ensures j.projectId == m.row.projectId && j.userId == m.row.userId
    ensures j.createdAt == m.row.createdAt && j.modifiedAt == m.row.modifiedAt
  {
    var row := m.row;
    MediaJson(
      m.id, row.name,
      resolve(mediaUrl, row.file),
      if Truthy(row.thumbnail) then Some(resolve(mediaUrl, row.thumbnail.value)) else row.thumbnail,
      row.mimeType, row.size, row.width, row.height, row.description,
      row.projectId, row.userId, row.createdAt, row.modifiedAt,
      if m.tags.Some? then Some(Names(m.tags.value)) else None)
  }

  /** Shaping is a projection: two instances with the same row, the same id and
      tag lists of equal names serialise alike, whatever the tag ids. */
  lemma ToJsonForgetsTagIds(m: Media, m': Media, mediaUrl: string, resolve: (string, string) -> string)
    requires m.id == m'.id && m.row == m'.row
    requires m.tags.Some? <==> m'.tags.Some?
    requires m.tags.Some? ==> |m.tags.value| == |m'.tags.value|
    requires m.tags.Some? ==> forall i :: 0 <= i < |m.tags.value| ==> m.tags.value[i].name == m'.tags.value[i].name
    ensures ToJson(m, mediaUrl, resolve) == ToJson(m', mediaUrl, resolve)
  {
    if m.tags.Some? {
      assert Names(m.tags.value) == Names(m'.tags.value);
    }
  }
}
