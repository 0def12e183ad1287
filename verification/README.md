# Media record model

A Dafny model of the `Media` model of contentjet-api (`models/Media.js`). A media
record is an uploaded file with metadata. It belongs to one project and one user,
and it is linked to any number of tags through the `media_mediaTag` join table.
The model covers the four pieces of logic the file holds beyond its ORM
declarations:

- **Tag reconciliation** (`setTags`, `getTags`). The store's tag ids for a media
  are diffed against the incoming ids with lodash's `_.difference`. Stale ids are
  unrelated and new ids are related, as two concurrent writes. The caller's list
  is handed back.
- **Project-scoped queries**. `getInProject` returns the media of one project with
  their tags eagerly loaded. `bulkDelete` deletes the listed ids, but only those
  that belong to the given project.
- **Output shaping** (`toJSON`). `file` is resolved against the media base URL.
  `thumbnail` is resolved only when it is truthy. Loaded tags become their names.
- **Schema validation** (`jsonSchema`). Unknown properties are rejected, required
  properties must be present, and each value must have its type and keep its
  bounds (maximum string lengths, `width`/`height` at least 0).

The store is an immutable value (`Store.Db`). It holds the media table as a map
from id to row, the tag catalog as a map from tag id to tag name, and the join
table as a set of `(mediaId, tagId)` links. Every operation is a pure function
over it, or a method where the store picks an enumeration order. Files:

| file | module | what |
|---|---|---|
| wrappers.dfy | `Wrappers` | `Option`, `Result` |
| lists.dfy | `Lists` | `Distinct`, `Elems`, `_.difference`, picking from a set |
| store.dfy | `Store` | rows, tags, join links, the related-tags query |
| tags.dfy | `TagSync` | `setTags` |
| queries.dfy | `Queries` | `getInProject`, `bulkDelete` |
| output.dfy | `Output` | `toJSON` |
| schema.dfy | `Schema` | `jsonSchema` and its validation |

Where the store chooses an order (`getTags`, the eager `tags` load,
`getInProject`), the model is a method that enumerates a set. Its contract fixes
the contents and says that no id repeats. The order is left open.

`url.resolve` and `config.MEDIA_URL` are parameters of `Output.ToJson`. The resolver
is an arbitrary function, and nothing is assumed about it.

Schema keys are classified by name (`Schema.KeyOf`). Each of the thirteen
declared property names maps to its own `Field`. Any other name becomes
`Undeclared`. An object as it arrives is keyed by raw names (`Schema.RawObject`).
`Schema.ValidateNames` classifies its names (`Schema.Classify`) and validates the
result with `Schema.Validate`, which works on classified keys.

## Model

| member | source | states |
|---|---|---|
| `Lists.Difference` | models/Media.js:150-151 | `_.difference(xs, ys)` holds exactly the elements of `xs` that are not in `ys`; it is never longer than `xs` and keeps `xs` repetition-free |
| `Lists.DifferenceCounts` | models/Media.js:150-151 | each kept element occurs in `_.difference(xs, ys)` as often as in `xs`, and each removed one not at all |
| `Store.RelatedTags` | models/Media.js:142-144 | the related-tags query returns every catalog tag joined to the media exactly once, each with its catalog name |
| `TagSync.PlanTags` | models/Media.js:147-151 | the unrelate list is exactly existing-minus-incoming and the relate list exactly incoming-minus-existing; the two lists are disjoint, so an id in both sets is in neither list; distinct inputs give distinct lists |
| `TagSync.PlanExample` | models/Media.js:147-151 | stored {1, 2} with incoming {2, 3} gives unrelate [1] and relate [3]; 2 is not written |
| `TagSync.SamePlanIsEmpty` | models/Media.js:150-155 | when the incoming id set equals the existing id set, both write lists are empty |
| `TagSync.Unrelate` | models/Media.js:153 | unrelating removes exactly the listed tag ids from the media's links and leaves every other media's links alone |
| `TagSync.Relate` | models/Media.js:155 | relating adds exactly the listed tag ids to the media's links, adds links of that media only, and leaves every other media's links alone |
| `TagSync.WritesCommute` | models/Media.js:153-156 | with disjoint lists, unrelate-then-relate and relate-then-unrelate give the same join table, so issuing the two writes concurrently is safe |
| `TagSync.OverlappingWritesDoNotCommute` | models/Media.js:153-156 | if the same id were in both lists, the result would depend on which write landed first |
| `TagSync.PlanReconciles` | models/Media.js:147-156 | once both writes of the diff land, the media's tag id set is exactly the incoming id set, for any existing and incoming ids; if only the unrelate lands, only the shared ids remain; if only the relate lands, the union remains; if neither lands, the set is unchanged |
| `TagSync.PlanIsLocal` | models/Media.js:153-155 | whichever writes land, no other media's tag links change |
| `TagSync.PlanKeepsLinksResolved` | models/Media.js:153-156 | if every join row points at a catalog tag before the writes, it still does after them, provided a relate that lands lists catalog ids only |
| `TagSync.PlanHasNoRedundantWrites` | models/Media.js:147-155 | every unrelated id has a stored link; when every link resolves to a catalog tag, no related id has one yet |
| `TagSync.SetTags` | models/Media.js:146-158 | `setTags` succeeds iff neither write fails, and then returns the caller's `mediaTags` list itself; the writes are the minimal diff against the stored tags, disjoint and repetition-free; each write changes the store; on success the media's tag set is exactly the incoming ids; equal sets mean no writes and an unchanged table; after a failure the tag set shows exactly the write that landed; other media and the media/tag tables are untouched; on success the table equals the one from the writes in the other order; the join rows keep pointing at catalog tags when the incoming tags are catalog tags |
| `Queries.GetInProject` | models/Media.js:117-121 | returns each media of the project exactly once and no other media; each returned row equals its stored row and carries its full tag list |
| `Queries.BulkDelete` | models/Media.js:135-139 | deletes exactly the rows whose id is listed AND whose project is the given one; other rows are unchanged; the count is the number of rows removed and at most the number of distinct listed ids |
| `Queries.BulkDeleteIdempotent` | models/Media.js:135-139 | repeating the same delete removes nothing and reports 0 |
| `Queries.BulkDeleteIsProjectScoped` | models/Media.js:135-139 | after a delete scoped to project p, every other project's rows are as before, and project p has lost exactly the listed ids |
| `Output.Names` | models/Media.js:131 | the tag projection has one name per tag, in the same order |
| `Output.ToJson` | models/Media.js:124-133 | `file` is always resolved against the base URL; `thumbnail` is resolved only when set and non-empty, and is passed through otherwise; a loaded tag list becomes its names with the same length and order, and an unloaded one stays absent; every other attribute is passed through |
| `Output.ToJsonForgetsTagIds` | models/Media.js:131 | the output depends on the loaded tags only through their names |
| `Schema.KeyOf` | models/Media.js:52-105 | a property name is classified as a declared field exactly when it is one of the declared names |
| `Schema.KeyOfFieldName` | models/Media.js:52-105 | every declared name classifies back to its own field, so the thirteen names are distinct |
| `Schema.ValueViolations` | models/Media.js:53-104 | every violation of a present value names that value's own property |
| `Schema.PropertyViolations` | models/Media.js:52-105 | the per-property checks report nothing iff every present declared value conforms, and each report names a present key |
| `Schema.Validate` | models/Media.js:48-114 | an object with classified keys is accepted, unchanged, iff it satisfies every schema rule; a rejection carries at least one violation, and each violation names a key of the object, except a missing-property violation, which names an absent key |
| `Schema.Classify` | models/Media.js:51-105 | classifying the raw names of an object keeps every property: a declared field is present iff its name is, with the same value, and an undeclared key is present exactly under its own name |
| `Schema.ValidateNames` | models/Media.js:48-114 | an object keyed by raw property names is accepted iff every name is a declared name, the six required names are present and every present value has its type and keeps its bounds; an accepted object keeps every value under its name's key; a rejection carries at least one violation |
| `Schema.NamesKeysDeclared` | models/Media.js:51 | every raw name is one of the declared names iff its classified object has no undeclared key |
| `Schema.NamesRequiredPresent` | models/Media.js:106-113 | the six required raw names are present iff the six required keys are present after classification |
| `Schema.UnknownNameRejected` | models/Media.js:51 | adding a property under any name that is not one of the thirteen declared names gets any payload rejected |
| `Schema.ViolationsMatchRules` | models/Media.js:50-113 | the schema-as-data checks find no violation iff the rules hold: no undeclared key; `name`, `file`, `mimeType`, `size`, `projectId`, `userId` present; string lengths within 512/512/512/128/64; integer types; `width`, `height` >= 0 |
| `Schema.UnknownEmpty` | models/Media.js:51 | there is no unknown-property violation iff every key is declared |
| `Schema.MissingEmpty` | models/Media.js:106-113 | there is no missing-property violation iff the six required properties are present |
| `Schema.ConformsEverywhere` | models/Media.js:52-105 | every declared property's value conforms iff the field-by-field type and bound rules hold |
| `Schema.EncodeValid` | models/Media.js:48-114 | the insert payload of a row passes validation iff the row keeps the column bounds (`Store.WellFormed`) |

## Left out

- `relationMappings`, `tableName`, query building and the `.eager('tags')` mechanics (models/Media.js:11-46) are library wiring. The model keeps what they mean: the `projectId` filter, the join through `media_mediaTag`, and the loaded tag list.
- Transactions (`trx`) are not modelled. Without an enclosing transaction, a failed write in `setTags` leaves the other write's effect in place, and the model states exactly that. Rollback is out of scope.
- Concurrency of `Promise.all`: each write is modelled as one statement that lands whole or not at all. The interleaving itself is not modelled. `TagSync.WritesCommute` shows that the order of the two writes does not matter.
- Storage faults are not modelled as such. The `Faults` parameter of `TagSync.SetTags` says which of the two writes the store rejects.
- TagSync.SetTags: duplicate incoming ids are absorbed by the set model of the join table. The real table might then receive two identical rows, or reject the insert through a unique constraint. Distinct incoming ids are needed only for the relate list to be repetition-free, and the contract says so.
- TagSync.SetTags: the store's rejection of a relate that names an id missing from the tag catalog is not derived from the store. A relate that lands is taken to land, whatever ids it names. The contract promises that join rows keep pointing at catalog tags only when the incoming tags are catalog tags; a caller that passes other ids sees the rejection through the `Faults` parameter.
- The media does not need to exist for `setTags`, and no `NotFoundError` is raised, because the code never checks for it.
- `Queries.BulkDelete` takes the id array as a sequence. `whereIn` ignores repeated ids, and so does the model.
- `getTags` and the eager `tags` load return the related tags in the store's order. The model returns them as a repetition-free list in an order it leaves open.
- Internals of `url.resolve` and the global `config.MEDIA_URL`: the resolver and the base URL are parameters of `Output.ToJson`.
- `date-time` format checking of `createdAt`/`modifiedAt`: any string is accepted.
- JSON-schema `default` values are not applied. `size` is both required and defaults to 0 (models/Media.js:72-75, 110). A validator that fills defaults before checking `required` accepts a payload without `size`, and `Schema.Validate` rejects it.
- Patch-mode validation, where the ORM skips `required`, is not modelled.
- A real validator may stop at its first error. `Schema.Validate` reports every violation. It agrees on accept versus reject with a validator that neither fills defaults nor checks `date-time` formats.
- The JSON type `integer` is modelled as a mathematical integer. Fractional numbers, booleans, null, arrays and objects are all "not an integer and not a string".
- Referential integrity of `projectId`/`userId` and of join rows, and cascade deletes of join rows when media are deleted, are enforced by the storage layer. `Queries.BulkDelete` acts on the media table only. The reconciliation result assumes every stored link resolves to a catalog tag (`Store.LinksResolve`).
- Generic create/update/delete-by-id from the ORM base class are not modelled. They carry no logic of this file beyond validation.
