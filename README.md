# OnBase upload service — a verified model of its core

The OnBase upload service is an ASP.NET service. It accepts documents for the
Hyland OnBase content store in pieces and commits them as one document. It
also reindexes the keywords of an existing document. This project models the
parts of the service that carry logic, and proves what they promise.

- **File lock registry** (`FileLockService`). This is a dictionary from a file
  path to a semaphore and the number of callers that refer to it.
  - `file_lock_service.dfy` holds the class, its pure registry steps, and a
    replay of any sequential history of acquires and releases.
- **Session pool** (`UnitySessionService`). This is a bag of pooled OnBase
  sessions, each stamped with the time it was last released.
  - Renting disposes stale or disconnected sessions until one survives. With
    no survivor it falls through to the session factory.
  - `unity_session_service.dfy` models it: the bag is a multiset, the clock is
    a tick count and the connection check is a predicate parameter.
- **Uploads** (`UploadController`). These are the upload jobs and their file
  slots, the whole-file and chunked upload protocol, and the completeness
  check of the commit.
  - `upload_rules.dfy` holds the pure rules: the chunk size and chunk
    arithmetic, the request checks, the slot look-ups, the file-type
    classifiers and the resource path.
  - `chunked_files.dfy` holds the seek-and-write semantics of a chunk write
    and the order-independence of chunk assembly.
  - `upload_controller.dfy` holds the controller as a class.
    - The database tables and the disk are fields.
    - `unavailable` is the set of paths whose open, create or delete throws
      (for example, a file held open elsewhere). The existence check never
      throws.
    - Every file write goes through the lock registry, and each write
      proves that the registry ends as it began.
- **Keyword reconciliation** (`DocumentsController.Index`). The document's
  keywords are grouped by type name and compared with the requested index,
  which turns them into Update, Remove and Add edits.
  - `keywords.dfy` holds the grouping.
  - `keyword_reconciliation.dfy` gives a closed form per occurrence. It proves
    the two loops of the endpoint against that closed form.
- **Document hash input** (`GetDocumentLastModified`). This is the string
  that gets hashed: the revision id, then the texts of the requested keywords.
  It lives in `document_hash.dfy`.

`text.dfy` holds the string helpers the source takes from .NET:
- invariant-culture decimal digits;
- ASCII lower-casing;
- `char.IsWhiteSpace`;
- `string.Replace` of one character.

Some behaviours of the source are kept exactly as written:
- the 32-bit chunk offset wraps;
- the chunked start looks the slot up by its identity key;
- an out-of-range index gives 400 on one endpoint and 403 on the other;
- a whole-file re-upload keeps the old content type;
- a negative size leaves an empty file behind;
- a null array element stops the occurrence counter;
- a commit of a job with no files fails with 500.

## Model

Source paths are relative to the repository root.

| member | source | states |
|---|---|---|
| Locking.AcquireStep | Greystone.OnbaseUploadService/Greystone.OnbaseUploadService/Services/Locking/FileLockService.cs:13-27 | a key not in the registry enters with a new semaphore and count 1; a present key keeps its semaphore and its count rises by exactly 1; every other entry is unchanged |
| Locking.ReleaseStep | Greystone.OnbaseUploadService/Greystone.OnbaseUploadService/Services/Locking/FileLockService.cs:36-55 | only for a present key (the indexer throws otherwise): the count drops by 1, the entry is removed when the count was 1 and otherwise keeps its semaphore; every other entry is unchanged |
| Locking.AcquireKeepsNoIdleEntries | Greystone.OnbaseUploadService/Greystone.OnbaseUploadService/Services/Locking/FileLockService.cs:13-27 | acquiring keeps every entry's count at least 1 |
| Locking.ReleaseKeepsNoIdleEntries | Greystone.OnbaseUploadService/Greystone.OnbaseUploadService/Services/Locking/FileLockService.cs:45-53 | releasing never leaves an entry with count 0 |
| Locking.ReleaseUndoesAcquire | Greystone.OnbaseUploadService/Greystone.OnbaseUploadService/Services/Locking/FileLockService.cs:9-55 | an acquire followed by its release gives back the registry exactly |
| Locking.ReplayCounts | Greystone.OnbaseUploadService/Greystone.OnbaseUploadService/Services/Locking/FileLockService.cs:9-55 | after any history in which each release disposes an outstanding lock, a key's count is its acquisitions minus its releases, the key is present exactly while that is positive, and no entry is idle |
| Locking.DrainedRegistryIsEmpty | Greystone.OnbaseUploadService/Greystone.OnbaseUploadService/Services/Locking/FileLockService.cs:45-49 | once every acquired lock has been released the registry is empty |
| Locking.FileLockService.constructor | Greystone.OnbaseUploadService/Greystone.OnbaseUploadService/Services/Locking/FileLockService.cs:7 | the service starts with an empty dictionary |
| Locking.FileLockService.AcquireLock | Greystone.OnbaseUploadService/Greystone.OnbaseUploadService/Services/Locking/FileLockService.cs:9-34 | the dictionary becomes AcquireStep of the old one; a new key gets a semaphore no other entry holds; the lock names the key and its semaphore; counts stay equal to acquisitions minus releases |
| Locking.FileLockService.Release | Greystone.OnbaseUploadService/Greystone.OnbaseUploadService/Services/Locking/FileLockService.cs:36-55 | reports whether the key was present; if so the dictionary becomes ReleaseStep of the old one, otherwise nothing changes; counts stay equal to acquisitions minus releases |
| Sessions.StalenessBoundary | Greystone.OnbaseUploadService/Greystone.OnbaseUploadService/Services/SessionManagement/UnitySessionService.cs:48 | a session released exactly one hour ago is not stale, one released a tick earlier is |
| Sessions.UnitySessionService.constructor | Greystone.OnbaseUploadService/Greystone.OnbaseUploadService/Services/SessionManagement/UnitySessionService.cs:12 | the pool starts empty |
| Sessions.UnitySessionService.Release | Greystone.OnbaseUploadService/Greystone.OnbaseUploadService/Services/SessionManagement/UnitySessionService.cs:29-34 | exactly one record for the session, stamped now, joins the bag; nothing is checked or disposed |
| Sessions.UnitySessionService.RentConnection | Greystone.OnbaseUploadService/Greystone.OnbaseUploadService/Services/SessionManagement/UnitySessionService.cs:20-71 | every disposed session was stale or failed the connection check, and is logged as disposed; a pooled result came from the bag, is fresh and connected, and the bag lost exactly it and the disposed ones; with no survivor the bag is empty and the result is the factory's; an empty bag goes straight to the factory; each round removes one record, so renting ends |
| UploadRules.RequiredChunkCount | Greystone.OnbaseUploadService/Greystone.OnbaseUploadService/Controllers/UploadController.cs:251 | the reported chunk count is the fewest ChunkSize chunks that hold the file: count × ChunkSize ≥ bytes and (count − 1) × ChunkSize < bytes |
| UploadRules.RequiredChunkCountExample | Greystone.OnbaseUploadService/Greystone.OnbaseUploadService/Controllers/UploadController.cs:251 | 2,500,000 bytes need 3 chunks, 3,000,000 bytes need 3, an empty file 0 |
| UploadRules.WrapInt32 | Greystone.OnbaseUploadService/Greystone.OnbaseUploadService/Controllers/UploadController.cs:510 | a 32-bit result is congruent to the exact one modulo 2^32 and equal to it when it fits |
| UploadRules.ChunkOffsetExact | Greystone.OnbaseUploadService/Greystone.OnbaseUploadService/Controllers/UploadController.cs:510 | the chunk offset is exact for chunks 0 to 2147 |
| UploadRules.ChunkOffsetNegative | Greystone.OnbaseUploadService/Greystone.OnbaseUploadService/Controllers/UploadController.cs:510 | the chunk offset is negative for chunks 2148 to 4294, so the seek throws |
| UploadRules.ChunkOffsetWrapsIntoFirstChunk | Greystone.OnbaseUploadService/Greystone.OnbaseUploadService/Controllers/UploadController.cs:510 | chunk 4295 is written at offset 32,704, inside chunk 0 |
| UploadRules.ImageMimeTypeIgnoresCase | Greystone.OnbaseUploadService/Greystone.OnbaseUploadService/Controllers/UploadController.cs:422-434 | the image check answers the same for MIME types that differ only in letter case |
| UploadRules.UploadRejection | Greystone.OnbaseUploadService/Greystone.OnbaseUploadService/Controllers/UploadController.cs:131-142 | a request passes exactly when the job exists, 0 ≤ index < FileCount, the content type is not blank (whole file only) and, with several files, it is an image type; checks fail in that order with 404, then 400 (403 on the chunked start, lines 211-212), then 400 |
| UploadRules.FirstWhere | Greystone.OnbaseUploadService/Greystone.OnbaseUploadService/Controllers/UploadController.cs:145 | FirstOrDefault finds the first row in table order that matches, or none when no row matches |
| UploadRules.ChunkedLookupMissesSlot | Greystone.OnbaseUploadService/Greystone.OnbaseUploadService/Controllers/UploadController.cs:218 | the chunked start, which compares the index with the row's key, misses an existing slot that the index look-up finds |
| UploadRules.GetOnBaseFileTypeNumber | Greystone.OnbaseUploadService/Greystone.OnbaseUploadService/Controllers/UploadController.cs:560-644 | the result is always one of the listed file type numbers, and an unlisted extension gives 2 |
| UploadRules.FileTypeNumberIgnoresDotsAndCase | Greystone.OnbaseUploadService/Greystone.OnbaseUploadService/Controllers/UploadController.cs:564-565 | dots and letter case in the extension do not change the file type |
| UploadRules.FileTypeNumberExample | Greystone.OnbaseUploadService/Greystone.OnbaseUploadService/Controllers/UploadController.cs:560-644 | ".PDF" is file type 16 |
| UploadRules.GetExtension | Greystone.OnbaseUploadService/Greystone.OnbaseUploadService/Controllers/UploadController.cs:355 | the page's extension: when a '.' after the last separator is not the path's last character, exactly the suffix from that dot; otherwise empty |
| UploadRules.ResourceName | Greystone.OnbaseUploadService/Greystone.OnbaseUploadService/Controllers/UploadController.cs:466 | the slot file name `{index}_{fileName}` is non-empty and not rooted |
| UploadRules.ResourceNameInjective | Greystone.OnbaseUploadService/Greystone.OnbaseUploadService/Controllers/UploadController.cs:466 | different (index, file name) pairs give different resource names |
| UploadRules.SynthesizeResourcePath | Greystone.OnbaseUploadService/Greystone.OnbaseUploadService/Controllers/UploadController.cs:456-473 | a path exists exactly when the working directory is configured |
| UploadRules.ResourcePathsDistinct | Greystone.OnbaseUploadService/Greystone.OnbaseUploadService/Controllers/UploadController.cs:466 | two slots of one job with different indices or file names never share a path string |
| ChunkedFiles.WriteAt | Greystone.OnbaseUploadService/Greystone.OnbaseUploadService/Controllers/UploadController.cs:510-511 | after seek and copy, the chunk's bytes sit at the offset, every other old byte is unchanged, the file never shrinks, a gap past the old end is zero, and an empty copy changes nothing |
| ChunkedFiles.ChunkStep | Greystone.OnbaseUploadService/Greystone.OnbaseUploadService/Controllers/UploadController.cs:506-511 | one chunk PUT on an existing file: a negative 32-bit offset makes the seek throw and leaves the file as it was; otherwise the chunk is written at that offset |
| ChunkedFiles.DistinctChunksDisjoint | Greystone.OnbaseUploadService/Greystone.OnbaseUploadService/Controllers/UploadController.cs:510 | two chunks with different indices, each written at its exact offset (chunks 0 to 2147) or rejected, never write the same byte |
| ChunkedFiles.ApplyChunksLength | Greystone.OnbaseUploadService/Greystone.OnbaseUploadService/Controllers/UploadController.cs:499-520 | chunk writes that end inside the pre-allocated file and never wrap around leave its length alone |
| ChunkedFiles.ApplyChunksAt | Greystone.OnbaseUploadService/Greystone.OnbaseUploadService/Controllers/UploadController.cs:499-520 | for distinct chunks that never wrap around, each byte of the file comes from the chunk whose 32-bit offset covers it, or from the pre-allocated file; a chunk whose offset is negative writes nothing |
| ChunkedFiles.ChunkOrderIrrelevant | Greystone.OnbaseUploadService/Greystone.OnbaseUploadService/Controllers/UploadController.cs:510-511 | distinct chunks, each at most ChunkSize bytes, each ending inside the pre-allocated file, and none wrapping around (chunk 0 to 2147, or rejected), give the same file in any arrival order |
| ChunkedFiles.ApplyChunksExtend | Greystone.OnbaseUploadService/Greystone.OnbaseUploadService/Controllers/UploadController.cs:499-520 | one more chunk PUT is one more step of the in-order assembly, so successive chunk writes to an existing file leave ApplyChunks of them on disk |
| ChunkedFiles.WrappedChunkOrderMatters | Greystone.OnbaseUploadService/Greystone.OnbaseUploadService/Controllers/UploadController.cs:510 | without the exact-offset condition order matters: chunk 4295 wraps to byte 32,704 inside chunk 0, and that byte is 1 or 7 depending on which of the two arrives last |
| Upload.TaskOf | Greystone.OnbaseUploadService/Greystone.OnbaseUploadService/Controllers/UploadController.cs:131 | the job look-up finds a job exactly when the id is in the table |
| Upload.SlotAt | Greystone.OnbaseUploadService/Greystone.OnbaseUploadService/Controllers/UploadController.cs:145 | the slot found for (job, index) is in the table with that job and index; when none is found no row has them |
| Upload.UploadController.constructor | Greystone.OnbaseUploadService/Greystone.OnbaseUploadService/Controllers/UploadController.cs:35-49 | the controller works over the given lock service, configuration, tables and files |
| Upload.UploadController.RemoveResource | Greystone.OnbaseUploadService/Greystone.OnbaseUploadService/Controllers/UploadController.cs:545-558 | succeeds (true) unless the file exists and cannot be deleted; an absent file also gives true; on success the file is gone |
| Upload.UploadController.CreateChunkedFileAsync | Greystone.OnbaseUploadService/Greystone.OnbaseUploadService/Controllers/UploadController.cs:476-496 | fails if the path already exists; otherwise creates a file of exactly `size` zero bytes, or an empty file and false when size is negative; the lock registry ends as it began |
| Upload.UploadController.UploadChunkAsync | Greystone.OnbaseUploadService/Greystone.OnbaseUploadService/Controllers/UploadController.cs:499-520 | succeeds exactly when the file exists and the 32-bit offset is not negative, and then the file becomes the seek-and-write of the chunk; the lock registry ends as it began; on an existing, writable file the new content is ChunkStep of the old one |
| Upload.UploadController.UploadResourceAsync | Greystone.OnbaseUploadService/Greystone.OnbaseUploadService/Controllers/UploadController.cs:523-543 | a whole-file write replaces any earlier content with exactly the uploaded bytes; the lock registry ends as it began |
| Upload.UploadController.PlaceSlot | Greystone.OnbaseUploadService/Greystone.OnbaseUploadService/Controllers/UploadController.cs:151-170 | a new slot is appended with the next identity; an existing slot first loses its old file, and the step fails with nothing changed when that delete throws; the next identity value rises by one exactly when a slot is appended |
| Upload.UploadController.UploadWholeFile | Greystone.OnbaseUploadService/Greystone.OnbaseUploadService/Controllers/UploadController.cs:126-179 | the rejection order of UploadRejection; a missing working directory gives 500; a new slot is appended, or an existing one whose old file is deleted first (500 if that fails) gets the new path and keeps its content type; on 204 the slot for (job, index) holds exactly the uploaded bytes; slots stay unique per (job, index); the next identity value rises by one exactly when a slot is appended |
| Upload.UploadController.UploadFileChunked | Greystone.OnbaseUploadService/Greystone.OnbaseUploadService/Controllers/UploadController.cs:202-255 | the rejection order with 403 for the index; the existing slot is looked up by key, loses its old file, and takes the new path, content type and chunked flag, otherwise a slot is added; the file is pre-allocated; the reply is the chunk count and size, or 500; the next identity value rises by one exactly when a slot is appended |
| Upload.UploadController.UploadDocumentChunk | Greystone.OnbaseUploadService/Greystone.OnbaseUploadService/Controllers/UploadController.cs:279-304 | 404 without a slot for (job, index), 400 when the slot was not started as chunked, 500 without a working directory or when the write throws, else 204 with the chunk written at its 32-bit offset into the file named by the chunk's own file name; the tables do not change |
| Upload.UploadController.PrepareCommit | Greystone.OnbaseUploadService/Greystone.OnbaseUploadService/Controllers/UploadController.cs:326-365 | 404 for an unknown job or, once the index parses, a missing document type; 500 for an unparsable index; the commit is ready exactly when FileCount ≥ 1 and every index 0..FileCount-1 has a slot whose file opens, and then the pages are those slots in index order and the file type is "Image File Format" for several pages, else the number of the single page's extension; otherwise the first index that is not ready decides: 400 when its slot is missing, 500 when its file cannot be opened, and 500 when FileCount ≤ 0; each status arises only in these cases |
| Upload.FindByIndexAfterWrite | Greystone.OnbaseUploadService/Greystone.OnbaseUploadService/Controllers/UploadController.cs:144-170 | after a whole-file upload the index look-up finds the written slot, and slots stay unique per (job, index) |
| Keywords.Flatten | Greystone.OnbaseUploadService/Greystone.OnbaseUploadService/Controllers/DocumentsController.cs:193-195 | the flattened list holds exactly the keywords of the records |
| Keywords.Names | Greystone.OnbaseUploadService/Greystone.OnbaseUploadService/Controllers/DocumentsController.cs:196-197 | the group keys are distinct and are exactly the type names that occur |
| Keywords.Members | Greystone.OnbaseUploadService/Greystone.OnbaseUploadService/Controllers/DocumentsController.cs:196-197 | a group holds exactly the keywords of its type name (order and multiplicity in MembersInOrder) |
| Keywords.GroupsAreNonEmpty | Greystone.OnbaseUploadService/Greystone.OnbaseUploadService/Controllers/DocumentsController.cs:269-270 | every group has at least one keyword |
| Keywords.NamesFirstAppearance | Greystone.OnbaseUploadService/Greystone.OnbaseUploadService/Controllers/DocumentsController.cs:196 | the first group is the first keyword's type name |
| Keywords.IndicesFrom | Greystone.OnbaseUploadService/Greystone.OnbaseUploadService/Controllers/DocumentsController.cs:196-197 | the positions holding a keyword of the given type name, increasing and all of them |
| Keywords.MembersInOrder | Greystone.OnbaseUploadService/Greystone.OnbaseUploadService/Controllers/DocumentsController.cs:196-197 | a group keeps document order and multiplicity: member i is the keyword at the i-th position with that type name |
| Keywords.FirstIndexOf | Greystone.OnbaseUploadService/Greystone.OnbaseUploadService/Controllers/DocumentsController.cs:196-197 | a group key's first keyword: it has that type name and no earlier keyword does |
| Keywords.NamesInFirstAppearanceOrder | Greystone.OnbaseUploadService/Greystone.OnbaseUploadService/Controllers/DocumentsController.cs:196-197 | the group keys come in the order their first keywords appear, as GroupBy yields them |
| Reconciliation.Lookup | Greystone.OnbaseUploadService/Greystone.OnbaseUploadService/Controllers/DocumentsController.cs:204-205 | a requested name is found exactly when the request holds it, with its value |
| Reconciliation.FirstNonString | Greystone.OnbaseUploadService/Greystone.OnbaseUploadService/Controllers/DocumentsController.cs:237-242 | the position where the occurrence counter can first stop: every earlier element is a string, and it is not |
| Reconciliation.ArrayStep | Greystone.OnbaseUploadService/Greystone.OnbaseUploadService/Controllers/DocumentsController.cs:233-256 | one step of the occurrence loop for an array: a string element updates and advances the counter; a null element changes nothing and holds the counter; another kind throws; past the end the keyword is removed |
| Reconciliation.WalkOccurrences | Greystone.OnbaseUploadService/Greystone.OnbaseUploadService/Controllers/DocumentsController.cs:199-256 | the occurrence loop throws exactly when the counter meets a non-string, non-null element; otherwise it yields the per-occurrence edits and the final counter |
| Reconciliation.ReconcileGroup | Greystone.OnbaseUploadService/Greystone.OnbaseUploadService/Controllers/DocumentsController.cs:199-284 | one group's edits: the per-occurrence edits, then an Add for each array element from the final counter on when the array is longer than the group |
| Reconciliation.NullOrMissingRemovesAll | Greystone.OnbaseUploadService/Greystone.OnbaseUploadService/Controllers/DocumentsController.cs:204-209 | a name missing from the request or mapped to null removes every keyword of its group |
| Reconciliation.StringUpdatesFirst | Greystone.OnbaseUploadService/Greystone.OnbaseUploadService/Controllers/DocumentsController.cs:213-231 | a string value updates the first keyword of the group and removes the others |
| Reconciliation.StringArrayReconciles | Greystone.OnbaseUploadService/Greystone.OnbaseUploadService/Controllers/DocumentsController.cs:233-283 | an array of m strings against n keywords: keyword i < m takes element i, keyword i ≥ m is removed, elements n..m-1 are added |
| Reconciliation.NullElementStopsCounter | Greystone.OnbaseUploadService/Greystone.OnbaseUploadService/Controllers/DocumentsController.cs:237-242 | at a null element the counter stops: later keywords are left as they are, and when the array is longer than the group everything from the null on is added, the null as "" |
| Reconciliation.OtherElementThrows | Greystone.OnbaseUploadService/Greystone.OnbaseUploadService/Controllers/DocumentsController.cs:239 | an element of another kind under the counter makes the request throw |
| Reconciliation.ReconcileGroups | Greystone.OnbaseUploadService/Greystone.OnbaseUploadService/Controllers/DocumentsController.cs:199-284 | the groups in dictionary order; the first group that throws ends the request |
| Reconciliation.AddNewNames | Greystone.OnbaseUploadService/Greystone.OnbaseUploadService/Controllers/DocumentsController.cs:289-335 | a requested name the document lacks throws when its keyword type is unknown, even when its value is null; a string adds one keyword; an array adds one per element and fails with 500 at a non-string element; null adds nothing |
| Reconciliation.Reconcile | Greystone.OnbaseUploadService/Greystone.OnbaseUploadService/Controllers/DocumentsController.cs:193-335 | the whole reconciliation: the group edits in group order, then the new-name edits in request order, unless something fails first |
| Reconciliation.GroupPhaseSucceeds | Greystone.OnbaseUploadService/Greystone.OnbaseUploadService/Controllers/DocumentsController.cs:199-284 | the group loop completes exactly when no group throws |
| Reconciliation.NewNamePhaseSucceeds | Greystone.OnbaseUploadService/Greystone.OnbaseUploadService/Controllers/DocumentsController.cs:289-335 | the new-name loop completes exactly when every new name has a keyword type and, for an array, only string elements |
| Reconciliation.ReconcileSucceeds | Greystone.OnbaseUploadService/Greystone.OnbaseUploadService/Controllers/DocumentsController.cs:193-335 | the document is reindexed exactly when no group throws and every new name is accepted |
| Reconciliation.AbsentNamesRemoved | Greystone.OnbaseUploadService/Greystone.OnbaseUploadService/Controllers/DocumentsController.cs:204-209 | when the document is reindexed, every keyword whose name the request leaves out or maps to null is among the Removes |
| DocumentHash.HashInput | Greystone.OnbaseUploadService/Greystone.OnbaseUploadService/Controllers/DocumentsController.cs:66 | the hashed string begins with the revision id's digits |
| DocumentHash.BuildHashInput | Greystone.OnbaseUploadService/Greystone.OnbaseUploadService/Controllers/DocumentsController.cs:66-82 | the nested loop builds the revision id followed by the texts of the requested keywords, record by record |
| DocumentHash.MatchingTextsAppend | Greystone.OnbaseUploadService/Greystone.OnbaseUploadService/Controllers/DocumentsController.cs:68-82 | the texts of consecutive keyword lists concatenate in order |
| DocumentHash.NoNamesNoKeywords | Greystone.OnbaseUploadService/Greystone.OnbaseUploadService/Controllers/DocumentsController.cs:74-77 | with no requested names no keyword text is appended |
| DocumentHash.RevisionDecidesWithoutNames | Greystone.OnbaseUploadService/Greystone.OnbaseUploadService/Controllers/DocumentsController.cs:66 | with no requested names, different revisions give different strings |
| DocumentHash.RequestedNamesIgnoreCase | Greystone.OnbaseUploadService/Greystone.OnbaseUploadService/Controllers/DocumentsController.cs:74-77 | requested names that differ only in letter case give the same string |

## Left out

- The lock registry is modelled as its dictionary bookkeeping only. Waiting
  on a semaphore (`WaitAsync`), the `lock` statements, async/await and the
  thread-safety of the session bag are concurrency, and are not modelled.
- Locking.FileLockService.Release: a release of an absent key throws in the
  source. Here it returns false and changes nothing.
- Sessions.UnitySessionService.RentConnection has these limits:
  - The clock does not move during one rent.
  - The connection check (`IsConnected` and `Ping`) is a predicate parameter.
  - The factory's outcome is a parameter, and an exception while connecting
    is `ConnectFailed`.
  - Disposal is a ghost log.
- The Hyland.Unity SDK is not modelled. This covers:
  - `GetDocumentByID`;
  - the document type look-up and the privilege checks;
  - the reindex and keyword-modifier objects;
  - `CreatePageData` and `StoreNewDocument`;
  - the `FileTypes.Find` look-up.

  The keyword edits are returned as data. The document type's presence and
  the parsing of the stored index are parameters of
  Upload.UploadController.PrepareCommit.
- Upload.UploadController.PrepareCommit stops at the page list and the file
  type. The keyword part of the commit (`UploadController.cs` lines 371-412) and the
  store-document call are not modelled.
- Job creation, the no-op job delete, DocumentTypesController,
  RootController, the API-key filter and the dependency-injection setup have
  no core logic and are not part of this model.
- KeywordService is not part of this model. A keyword created from a string
  is its type name and that string. Parse failures of typed keywords, which
  throw in the source, are not modelled.
- MD5 and Base64 over the hash input are not modelled, nor is
  `JsonSerializer`. Request values arrive already split into JSON null,
  string, array and other kinds.
- EF Core and the file system become in-memory fields, and
  `SaveChangesAsync` is the assignment to a table. `Directory.CreateDirectory`
  is not modelled. A file operation either fails before changing anything or
  succeeds completely, so a stream copy that fails halfway is not modelled.
- UploadRules.RequiredChunkCount is integer ceiling division over
  non-negative sizes. The source's double `Math.Ceiling` agrees with it below
  2^53 bytes, and the source's cast of the count to `int` is not modelled. A
  negative size never reaches it, because pre-allocation fails first.
- Text.ToLower folds only ASCII letters, like the invariant culture.
  `ToLower()` on the MIME type and the extension (`UploadController.cs`
  lines 424 and 565) uses the host's current culture. The model assumes that
  culture folds ASCII letters as the invariant culture does: under a Turkish
  culture, for example, "IMAGE/PNG" lowers to a dotless "ımage/png". Case
  folding of non-ASCII letters is not modelled, here or in the
  case-insensitive keyword name comparison.
- Upload.CommitFileType classifies the extension of the first slot's file
  name. The source classifies the extension stored on the SDK's page data
  object (`UploadController.cs` line 362), which was created from that same
  file name (line 355). The model assumes the SDK keeps the extension as
  given.
- UploadRules.ResourcePathsDistinct compares paths as strings, and the
  disk, the failing paths and the lock registry are all keyed by the path
  string. The source passes the client's file name to `Path.Combine`
  unchanged, and the operating system resolves the result. Separators and
  `..` segments in a client file name, and case-insensitive volumes, are not
  modelled. Two different strings can then name one file, which also gets
  two locks. A chunk PUT whose file name differs only in case from the one
  sent at the chunked start fails in the model (500), but can succeed on
  such a volume.
- ChunkedFiles.ChunkOrderIrrelevant covers only chunks that land at their
  exact offset or are rejected. A chunk index of 4295 or more can wrap around
  to a non-negative offset inside earlier chunks, and then the order matters
  (ChunkedFiles.WrappedChunkOrderMatters). It also needs every chunk to be at most
  ChunkSize bytes and to end inside the pre-allocated file. The source does
  not check a chunk's length, and an oversize chunk that overlaps the next
  one makes the order matter too.
- UploadRules.GetExtension models `Path.GetExtension` with '\\' and '/' as
  separators. Volume separators and invalid path characters are not modelled.
- UploadRules.SynthesizeResourcePath models `Path.Combine` for parts that are
  not rooted.
- Logging is not modelled. That includes the warning for a new keyword name
  missing from the document type, which is only logged.
- The keyword reconciliation assumes a JSON null in the request dictionary
  arrives as a null reference. The source's null check on a string element's
  `GetString()` can then never fire, and the null checks that matter are
  those on array elements.
