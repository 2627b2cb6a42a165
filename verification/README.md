# JSON-stat archive store, modelled in Dafny

This project models the archive store of a chat assistant for statistical
tables, plus a small helper from the same code base:

- **The archive** (`src/helpers/json_stat_archive_db.py`) keeps JSON-stat
  documents in two keyed tables:
  - `datasets`, one row per table id, holding the compressed *compact*
    document, its timestamp and its dimension map;
  - `registry`, one compressed entry per *fingerprint*.
- **Compaction.** Writing a dataset strips every dimension's category labels
  and its title, and writes its category index as an explicit list. The
  stripped definition goes into the registry under a content hash of its
  name, index and labels, and the dimension map sends the name to that hash.
- **Rehydration.** Reading with labels puts the registry entries back.
- **Text coercion** (`src/utils/text_coercion.py`) flattens a chat reply's
  content (a string, a list of parts, or another value) into one string.

How the model is built:

- **JSON values** are the datatype `Json.Json`. A dict is an association list,
  so key order and the effect of `d[k] = v` and `del d[k]` on it are exact.
  `Canon` forgets key order: values with the same `Canon` are equal as Python
  values.
- **SHA-1 over sorted-key JSON text** is a parameter `digest` of the canonical
  value.
- **JSON text plus zstd** are a pair of parameters, `encode` and `decode`.
  A property that reads something back assumes `Codec.Decodes` (decoding the
  encoding gives the value back) only of the values it reads back.
- **The store** is the class `ArchiveDb.JSONStatArchiveDB`, whose fields are
  the two tables as maps.
  - Its methods mirror `write`, `read`, `_upsert_registry`,
    `_compact_and_registry` and `_rehydrate` loop for loop.
  - Each method is proved to compute exactly what a specification function
    of the tables computes (`WriteAll`, `ReadRows`, `Compact`, `Rehydrate`).
  - The lemmas in `ArchiveFacts`, `CompactionFacts` and `Dimension` prove
    what those functions promise.
- **Python exceptions** are the `Error` values of a `Result`. A batch write
  that raises leaves both tables as they were, as the source's transaction
  does.

Behaviour of the code that the model keeps, although it is easy to expect otherwise:

- A read that meets a row it cannot decode raises out of the generator, so
  the remaining rows are not produced (`ReadRows` stops at the first error).
- Rehydration overwrites `category.index` only when the stored index is
  non-empty.
- The round trip is exact only as stated under `WriteReadRoundTrip` below:
  - a position-map index comes back as a list;
  - empty labels and empty titles are not restored;
  - a fingerprint registered earlier keeps its first title, because the title
    is not hashed.

## Model

| member | source | states |
|---|---|---|
| Dimension.OrderedIndexList | src/helpers/json_stat_archive_db.py:20-29 | Non-dict category raises. A list index is returned as is. A position-map index gives its keys in ascending position order (a permutation of the map, sorted, keys with equal positions in map order), or TypeError when positions of different kinds meet. Otherwise the keys of a dict `label` in insertion order, else nothing. |
| Dimension.SortByPosition | src/helpers/json_stat_archive_db.py:25 | The result is sorted by position and is a permutation of the items. |
| Dimension.SortStable | src/helpers/json_stat_archive_db.py:25 | The sort is stable: the items with any one position come out in their input order. |
| Dimension.FingerprintPayload | src/helpers/json_stat_archive_db.py:32 | What is hashed is, up to key order, exactly the name, the index list and the labels, with falsy labels hashed as null. |
| Dimension.Fingerprint | src/helpers/json_stat_archive_db.py:31-33 | The fingerprint is the digest of that key-order-free payload, so the key order of the dicts plays no part. |
| Dimension.EmptyLabelsLikeAbsent | src/helpers/json_stat_archive_db.py:32 | An empty label dict gives the same fingerprint as no labels. |
| Dimension.LabelOrderIrrelevant | src/helpers/json_stat_archive_db.py:33 | Label dicts equal up to key order give the same fingerprint. |
| Dimension.FingerprintSeparatesNames | src/helpers/json_stat_archive_db.py:31-33 | Dimensions with different names have different hashed payloads, whatever their index and labels. |
| Compaction.LooksLikeDatasetKeyOrder | src/helpers/json_stat_archive_db.py:160-161 | Whether a document is a dataset (`class` is "dataset" and `dimension` a dict) does not depend on key order. |
| Compaction.Describe | src/helpers/json_stat_archive_db.py:184-187 | A non-dict dimension raises AttributeError. Otherwise the definition exists iff the category (after `or {}`) has an ordered index list, and fails with its error if not. The index is that list. The labels are the category's `label` if that is a dict, else null. The title is the dimension's `label`, null if absent. |
| Compaction.DistinctFingerprints | src/helpers/json_stat_archive_db.py:189 | If the digest has no collision among a dataset's dimension payloads and never returns "", its visited dimensions get non-empty fingerprints, distinct for distinct names. |
| Compaction.StripDimension | src/helpers/json_stat_archive_db.py:199-208 | Stripping raises AttributeError on a non-dict dimension and TypeError on a non-dict category. Otherwise only that dimension changes: it loses its title, and its category gets the index list and loses its labels. |
| Compaction.ReattachDim | src/helpers/json_stat_archive_db.py:230-246 | Reattaching raises AttributeError on a non-dict dimension. It fails iff something must be written into a category that is not a dict. Otherwise it gives a dict with a category, and keys other than the title and category are kept. |
| Compaction.Rehydrate | src/helpers/json_stat_archive_db.py:213-249 | A rehydrated dataset is still a dataset. Every key but `dimension` is kept. |
| Compaction.StrippedIdempotent | src/helpers/json_stat_archive_db.py:199-208 | Stripping an already stripped dimension changes nothing. |
| CompactionFacts.CompactDataset | src/helpers/json_stat_archive_db.py:163-211 | Compacting a dataset replaces only `dimension` and yields a dataset. Every visited id is a string that can be described. Its compact form, dimension map and staged entries are exactly those of the names visited. |
| CompactionFacts.CompactNotDataset | src/helpers/json_stat_archive_db.py:170-172 | A non-dataset is returned as it is, with no map and nothing staged. |
| CompactionFacts.CompactedDimension | src/helpers/json_stat_archive_db.py:199-208 | A visited dimension loses its title and category labels, and gets the resolved index as a list. Every other key is kept. An unvisited dimension is untouched. |
| CompactionFacts.StagedExactly | src/helpers/json_stat_archive_db.py:189-197 | A fingerprint is staged exactly when some visited dimension has it. |
| CompactionFacts.StagedFirstWins | src/helpers/json_stat_archive_db.py:191-197 | The entry staged under a fingerprint is that of the first visited dimension that has it. |
| CompactionFacts.RehydrateUnresolved | src/helpers/json_stat_archive_db.py:221-227 | A dataset whose ids have no usable reference (no map entry, empty fingerprint, no registry row) comes back unchanged. |
| CompactionFacts.RehydrateSkips | src/helpers/json_stat_archive_db.py:222-227 | A dimension without a usable reference is left as it was, whatever the other dimensions do. |
| CompactionFacts.RehydrateReattaches | src/helpers/json_stat_archive_db.py:221-246 | A visited dimension with a usable reference becomes its stored form reattached to the registry entry it names. |
| CompactionFacts.ReattachTwice | src/helpers/json_stat_archive_db.py:230-246 | Reattaching the same entry twice gives what reattaching once gives. |
| CompactionFacts.CompactKeepsIds | src/helpers/json_stat_archive_db.py:174-216 | When no dimension is named "id", compaction leaves the dimension ids as they were, so a read visits the ids the write visited. A dimension named "id" would overwrite them. |
| CompactionFacts.RestoreDim | src/helpers/json_stat_archive_db.py:228-246 | Reattaching a dimension's own entry to its compact form gives the dimension back, up to key order. |
| CompactionFacts.RoundTrip | src/helpers/json_stat_archive_db.py:163-249 | Rehydrating the compact form of a dataset gives the dataset back, up to key order, when the registry holds each dimension's own entry. |
| ArchiveDb.UpsertAll | src/helpers/json_stat_archive_db.py:74-76 | After the staged entries are upserted, a fingerprint is present iff it was before or was staged. It keeps its old row if it had one, else it holds the first staged entry. |
| ArchiveDb.WriteOne | src/helpers/json_stat_archive_db.py:69-89 | Writing a table fails iff its document cannot be compacted. Otherwise its row is replaced by the encoded compact document, the timestamp and the dimension map, and no registry row is removed or replaced. |
| ArchiveDb.WriteAll | src/helpers/json_stat_archive_db.py:67-89 | A batch never removes or replaces a registry row. |
| ArchiveDb.ReadDoc | src/helpers/json_stat_archive_db.py:123-126 | An undecodable row raises. Without labels the decoded document is returned. With labels, a non-dict raises AttributeError and a non-dataset is returned as is. A rehydrated dataset is still a dataset with its other keys kept. |
| ArchiveDb.ReadRows | src/helpers/json_stat_archive_db.py:122-127 | The rows produced are those of the ids up to the first that raises, in order, each with its stored timestamp. The error is that of the next id, and there is none iff every id was read. |
| ArchiveDb.WriteOneRefs | src/helpers/json_stat_archive_db.py:72-89 | After writing a table, every fingerprint in every dimension map has a registry row. |
| ArchiveDb.SortedIds | src/helpers/json_stat_archive_db.py:118-120 | The stored ids in ascending order, each exactly once. |
| ArchiveDb.Selected | src/helpers/json_stat_archive_db.py:112-120 | The ids a read visits are stored ids. |
| ArchiveDb.JSONStatArchiveDB.constructor | src/helpers/json_stat_archive_db.py:46-47 | A new store is empty, and every reference in it resolves. |
| ArchiveDb.JSONStatArchiveDB.UpsertRegistry | src/helpers/json_stat_archive_db.py:151-158 | An existing fingerprint keeps its row. A new one gets the encoded entry. `datasets` is unchanged. |
| ArchiveDb.JSONStatArchiveDB.CompactAndRegistry | src/helpers/json_stat_archive_db.py:163-211 | The loop computes `Compact`. |
| ArchiveDb.JSONStatArchiveDB.Rehydrate | src/helpers/json_stat_archive_db.py:213-249 | The loop computes `Rehydrate` against the current registry. |
| ArchiveDb.JSONStatArchiveDB.Write | src/helpers/json_stat_archive_db.py:51-91 | The store ends as `WriteAll` says, or, if any document raises, exactly as it was, with that error. Every reference stays resolvable. |
| ArchiveDb.JSONStatArchiveDB.ReadOne | src/helpers/json_stat_archive_db.py:122-126 | One row is decoded, and rehydrated when labels are wanted and it is a dataset. |
| ArchiveDb.JSONStatArchiveDB.SelectIds | src/helpers/json_stat_archive_db.py:112-120 | A non-empty id selects that row if it exists. Otherwise all ids are selected, ascending. |
| ArchiveDb.JSONStatArchiveDB.Read | src/helpers/json_stat_archive_db.py:93-129 | The rows produced, and the error that ends the scan, are those of `ReadRows` on the selected ids. |
| ArchiveFacts.WriteAllFails | src/helpers/json_stat_archive_db.py:67-89 | A batch fails iff some document cannot be compacted, and then with the error of the first such document. |
| ArchiveFacts.UnwrittenRowsUnchanged | src/helpers/json_stat_archive_db.py:81-89 | After a batch the ids are the old ones plus the written ones. A row the batch does not name is unchanged. |
| ArchiveFacts.LastWriteWins | src/helpers/json_stat_archive_db.py:78-89 | A written table holds its last payload's encoded compact document, timestamp and dimension map. |
| ArchiveFacts.RehydrateLoopAgree | src/helpers/json_stat_archive_db.py:221-228 | Rehydration depends only on the registry rows the dimension map names. |
| ArchiveFacts.ReadAfterLaterWrites | src/helpers/json_stat_archive_db.py:122-127 | A table that later writes do not name reads back exactly as before, labels included. |
| ArchiveFacts.ReadWithoutLabels | src/helpers/json_stat_archive_db.py:123-124 | With labels off, a written table reads back as its compact document, if that document decodes back. |
| ArchiveFacts.NonDatasetRoundTrip | src/helpers/json_stat_archive_db.py:170-172 | A non-dataset is stored with an empty map, leaves the registry alone and, if it decodes back, reads back unchanged with or without labels. |
| ArchiveFacts.RegisteredAfterWrite | src/helpers/json_stat_archive_db.py:189-197 | After a write, the registry row of a visited dimension's fingerprint holds that dimension's own entry when no earlier dimension of the dataset has the fingerprint and no earlier row conflicts. |
| ArchiveFacts.WriteReadRoundTrip | src/helpers/json_stat_archive_db.py:51-129 | A dataset written and read back with labels equals the original up to key order, under the conditions listed below. |
| ArchiveFacts.FirstTitleWins | src/helpers/json_stat_archive_db.py:151-158 | When a batch writes table A and then table B, and a dimension of B has the fingerprint that the same dimension of A registered first, reading B with labels gives that dimension A's title, whatever title B had. |
| ArchiveFacts.TitleNotFingerprinted | src/helpers/json_stat_archive_db.py:187-196 | Changing a dimension's title does not change its fingerprint. |
| ArchiveFacts.TitleFromRegistry | src/helpers/json_stat_archive_db.py:241-243 | A rehydrated dimension's title is the registry entry's title whenever that is non-empty. |
| ArchiveFacts.LabelsFromRegistry | src/helpers/json_stat_archive_db.py:237-239 | A rehydrated category's labels are the registry entry's labels whenever those are non-empty, and the category's own labels otherwise. |
| ArchiveFacts.IndexFromRegistry | src/helpers/json_stat_archive_db.py:233-235 | A rehydrated category index is the registry's list whenever that is non-empty. |
| TextOrder.AscendingUnique | src/helpers/json_stat_archive_db.py:119 | Two ascending orderings of the same ids are the same sequence. |
| TextCoercion.Text | src/utils/text_coercion.py:4-20 | A string is unchanged, an empty list gives "", and any other non-list value gives its `str()`. |
| TextCoercion.ToText | src/utils/text_coercion.py:4-20 | The loop over the parts computes `Text`. |
| TextCoercion.Piece | src/utils/text_coercion.py:11-18 | A string part is kept. A dict gives its "text" entry, or "" without one. A list, or another part without `.text`, gives its `str()`, and another part with `.text` gives that attribute. A piece that is not a string can only be such a text, and a piece is a string exactly when there is no such non-string text. |
| TextCoercion.JoinPieces | src/utils/text_coercion.py:19 | Joining succeeds iff every piece is a string. |
| TextCoercion.SplitJoin | src/utils/text_coercion.py:19 | Splitting at newlines recovers one or more newline-free strings after joining. |
| TextCoercion.ListText | src/utils/text_coercion.py:8-19 | A list has a text iff every piece is a string. That text splits back into exactly one piece per part when the list is non-empty and no piece holds a newline. |
| TextCoercion.CoerceAiToText | src/utils/text_coercion.py:22-29 | The new message's content is the text of the old. The extra arguments and response metadata are kept. It fails iff `_to_text` raises. |
| TextCoercion.CoerceIdempotent | src/utils/text_coercion.py:22-29 | Coercing a coerced message changes nothing. |

## Left out

- SQLite mechanics are not modelled: connections, schema creation, pragmas, WAL and SQL text (json_stat_archive_db.py:62-64, 133-149). The two tables are maps, and `with conn:` is an all-or-nothing update of them.
- Storage-layer failures are not modelled: a missing file, a full disk, lock contention.
- `db_path` is dropped, and the compression level is folded into `encode`.
- zstd, JSON text and SHA-1 (json_stat_archive_db.py:8-18, 33) are parameters, and nothing is assumed of them globally. A lemma that reads something back assumes `decode(encode(j)) == Some(j)` of the documents and entries it reads. The round trip assumes that SHA-1 has no collision among the payloads of the written dataset's own dimensions and never gives "".
- `Read` is not lazy: the generator becomes a finite list of rows plus the error that ended it.
- JSON numbers are reals: NaN, infinities and the int/float distinction are not modelled.
- The dimension map is kept as a map rather than as its JSON text, so `json.loads(dim_map_json) if dim_map_json else {}` is the identity.
- A `payload` without `"data"` (a KeyError) is not modelled, and the timestamp is taken to be a string or absent.
- Dimension ids that are numbers, booleans or null give a model-only `NonStringDimensionId` error when a dataset is compacted. In Python that write succeeds:
  - such an id matches no (string) key, so it is described as an empty dimension;
  - its fingerprint goes into the dimension map;
  - the compact document gains a dimension `{"category": {"index": []}}` stored under the id's JSON text (`5` becomes `"5"`).

  On a later read the map's key is a string, so the lookup by the non-string id misses and the dimension is skipped. The model's rehydration skips it too. Ids that are lists or dicts raise TypeError, as in Python.
- Dict keys are strings, so a dict key equal to a number is not modelled.
- Python's `True == 1` is modelled when comparing positions, but a position that is a list or a dict is treated as unorderable.
- Aliasing between the input document and the compact copy is not modelled; values are used throughout.
- CompactionFacts.RoundTrip: stated only for distinct ids, none named "id". Each dimension must have a dict category with a list index, category labels that are absent or a non-empty dict, and a title that is absent or non-empty. These are also the cases where the source's own round trip holds, because empty labels and titles are not restored.
- ArchiveFacts.WriteReadRoundTrip: stated for one write, under RoundTrip's conditions and the codec and hash premises above. It also requires that any fingerprint already registered holds this dataset's own entry, because the first title registered for a fingerprint wins (FirstTitleWins). Later writes are covered by ReadAfterLaterWrites.
- ArchiveFacts.FirstTitleWins: stated for a batch of two tables where the first is the first to register the fingerprint, and only when the read succeeds; it does not say when the read succeeds.
- ArchiveDb.JSONStatArchiveDB.Write: the batch is a sequence of pairs, not a dict, so a repeated id is allowed (the last one wins).
- TextCoercion: `str()` of a non-string value is a parameter `show`. An `AIMessage` is a record of content, extra arguments and response metadata; its other fields are not modelled.
