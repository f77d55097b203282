/**
 * The stateful part of UploadController: the upload endpoints over the
 * UploadTasks/UploadFiles tables and the files on disk, each file write
 * serialised through the FileLockService.
 *
 * The database is two in-memory tables (rows of UploadFiles in key order,
 * which is the order FirstOrDefault sees them); the disk maps a path to its
 * bytes; `unavailable` holds the paths whose open, create or delete throws
 * (for example, a file held open elsewhere); the existence check never
 * throws.  Paths are compared as strings.  SaveChangesAsync is the
 * assignment to the tables.
 */
module Upload {
  import opened Wrappers
  import opened UploadRules
  import opened ChunkedFiles
  import Locking

  /** The parts of an IFormFile the endpoints use. */
  datatype FormFile = FormFile(fileName: string, contentType: string, content: seq<byte>)

  /** ChunkedUploadRequestModel. */
  datatype ChunkedUploadRequest = ChunkedUploadRequest(fileBytes: Int64, fileName: string, contentType: string)

  /** The reply of the chunked upload start: 200 with ChunkedUploadResponseModel, or a failure status. */
  datatype ChunkedReply = ChunkPlan(chunkCount: int, chunkSize: int) | ChunkedRejected(status: int)

  /** The file type the commit looks up: "Image File Format" for several
      pages, else the number for the single page's extension. */
  datatype FileTypeChoice = ImageFileFormat | FileTypeNumber(number: int)

  /** What the commit hands to the document store, or the failure status. */
  datatype CommitPlan = Ready(files: seq<UploadFile>, fileType: FileTypeChoice) | CommitRejected(status: int)

  function TaskOf(tasks: map<TaskId, UploadTask>, uploadId: TaskId): (t: Option<UploadTask>)
    ensures t.Some? <==> uploadId in tasks
  {
    if uploadId in tasks then Some(tasks[uploadId]) else None
  }

  /** The slot that `FirstOrDefault(v => v.UploadTaskId == uploadId && v.Index == i)` finds. */
  function SlotAt(files: seq<UploadFile>, uploadId: TaskId, i: int): (s: Option<UploadFile>)
    ensures s.Some? ==> s.value in files && s.value.uploadTaskId == uploadId && s.value.index == i
    ensures s.None? ==> forall f :: f in files ==> f.uploadTaskId != uploadId || f.index != i
  {
    match FindByIndex(files, uploadId, i)
    case Some(k) => Some(files[k])
    case None => None
  }

  /** The file type the commit picks for its pages. */
  function CommitFileType(files: seq<UploadFile>): FileTypeChoice
    requires |files| >= 1
  {
    if |files| > 1 then ImageFileFormat
    else FileTypeNumber(GetOnBaseFileTypeNumber(GetExtension(files[0].fileName)))
  }

  /** Ids increase along the table and stay below the next identity value. */
  ghost predicate IdsIncreasing(files: seq<UploadFile>, nextFileId: int) {
    && (forall j :: 0 <= j < |files| ==> files[j].id < nextFileId)
    && (forall j, k :: 0 <= j < k < |files| ==> files[j].id < files[k].id)
  }

  class UploadController {
    var uploadTasks: map<TaskId, UploadTask>
    var uploadFiles: seq<UploadFile>
    var nextFileId: int
    var disk: map<string, seq<byte>>
    const unavailable: set<string>
    /** `_configuration["WorkingDirectory"]`. */
    const workingDirectory: Option<string>
    const fileLocks: Locking.FileLockService

    ghost predicate Valid()
      reads this, fileLocks
    {
      fileLocks.Valid() && IdsIncreasing(uploadFiles, nextFileId)
    }

    /** A controller over existing tables and files. */
    constructor (
      fileLocks: Locking.FileLockService, workingDirectory: Option<string>, unavailable: set<string>,
      uploadTasks: map<TaskId, UploadTask>, uploadFiles: seq<UploadFile>, nextFileId: int,
      disk: map<string, seq<byte>>)
      requires fileLocks.Valid() && IdsIncreasing(uploadFiles, nextFileId)
      ensures Valid()
      ensures this.fileLocks == fileLocks && this.workingDirectory == workingDirectory
      ensures this.unavailable == unavailable && this.uploadTasks == uploadTasks
      ensures this.uploadFiles == uploadFiles && this.nextFileId == nextFileId && this.disk == disk
    {
      this.fileLocks := fileLocks;
      this.workingDirectory := workingDirectory;
      this.unavailable := unavailable;
      this.uploadTasks := uploadTasks;
      this.uploadFiles := uploadFiles;
      this.nextFileId := nextFileId;
      this.disk := disk;
    }

    // -------------------------------------------------------------------
    // File operations
    // -------------------------------------------------------------------

    /** RemoveResource: delete the file if it exists; true also when there
        was nothing to delete, false when the delete throws. */
    method RemoveResource(resourcePath: string) returns (ok: bool)
      modifies this`disk
      ensures ok == !(resourcePath in old(disk) && resourcePath in unavailable)
      ensures disk == if ok then old(disk) - {resourcePath} else old(disk)
    {
      if resourcePath in disk {
        if resourcePath in unavailable {
          return false;
        }
        disk := disk - {resourcePath};
      }
      ok := true;
    }

    /** CreateChunkedFileAsync: under the path's lock, FileMode.CreateNew
        then SetLength(size).  A negative size makes SetLength throw after
        the empty file has been created. */
    method CreateChunkedFileAsync(resourcePath: string, size: Int64) returns (ok: bool)
      requires Valid()
      modifies this`disk, fileLocks
      ensures Valid()
      ensures fileLocks.monitors == old(fileLocks.monitors)
      ensures ok == (resourcePath !in old(disk) && resourcePath !in unavailable && size >= 0)
      ensures disk == if resourcePath in old(disk) || resourcePath in unavailable then old(disk)
                      else old(disk)[resourcePath := Zeros(if size >= 0 then size else 0)]
    {
      var fileLock := fileLocks.AcquireLock(resourcePath);
      if resourcePath in disk || resourcePath in unavailable {
        ok := false;
      } else {
        disk := disk[resourcePath := []];
        if size < 0 {
          ok := false;
        } else {
          disk := disk[resourcePath := Zeros(size)];
          ok := true;
        }
      }
      var released := fileLocks.Release(fileLock.key);
      Locking.ReleaseUndoesAcquire(old(fileLocks.monitors), resourcePath, old(fileLocks.nextSemaphore));
    }

    /** UploadResourceAsync for a chunk: under the path's lock, open the
        existing file, seek to `chunkId * ChunkSize` (32-bit) and copy the
        chunk there.  A missing file or a negative offset throws. */
    method UploadChunkAsync(resourcePath: string, chunkId: Int32, content: seq<byte>) returns (ok: bool)
      requires Valid()
      modifies this`disk, fileLocks
      ensures Valid()
      ensures fileLocks.monitors == old(fileLocks.monitors)
      ensures ok == (resourcePath in old(disk) && resourcePath !in unavailable && ChunkOffset(chunkId) >= 0)
      ensures disk == if ok then old(disk)[resourcePath := WriteAt(old(disk)[resourcePath], ChunkOffset(chunkId), content)]
                      else old(disk)
      // on an existing file, each call is one step of ApplyChunks
      ensures resourcePath in old(disk) && resourcePath !in unavailable ==>
        disk == old(disk)[resourcePath := ChunkStep(old(disk)[resourcePath], ChunkWrite(chunkId, content))]
    {
      var fileLock := fileLocks.AcquireLock(resourcePath);
      var offset := ChunkOffset(chunkId);
      if resourcePath !in disk || resourcePath in unavailable || offset < 0 {
        ok := false;
      } else {
        disk := disk[resourcePath := WriteAt(disk[resourcePath], offset, content)];
        ok := true;
      }
      var released := fileLocks.Release(fileLock.key);
      Locking.ReleaseUndoesAcquire(old(fileLocks.monitors), resourcePath, old(fileLocks.nextSemaphore));
    }

    /** UploadResourceAsync for a whole file: under the path's lock,
        FileMode.Create (create or truncate) and copy the stream. */
    method UploadResourceAsync(resourcePath: string, content: seq<byte>) returns (ok: bool)
      requires Valid()
      modifies this`disk, fileLocks
      ensures Valid()
      ensures fileLocks.monitors == old(fileLocks.monitors)
      ensures ok == (resourcePath !in unavailable)
      ensures disk == if ok then old(disk)[resourcePath := content] else old(disk)
    {
      var fileLock := fileLocks.AcquireLock(resourcePath);
      if resourcePath in unavailable {
        ok := false;
      } else {
        disk := disk[resourcePath := content];
        ok := true;
      }
      var released := fileLocks.Release(fileLock.key);
      Locking.ReleaseUndoesAcquire(old(fileLocks.monitors), resourcePath, old(fileLocks.nextSemaphore));
    }

    /** The table step shared by both ways of starting an upload: with no
        slot, `row` is added under the next identity value; with a slot, its
        old file is deleted and the slot becomes `row`, unless the delete
        throws. */
    method PlaceSlot(slot: Option<nat>, row: UploadFile) returns (ok: bool)
      requires Valid()
      requires slot.Some? ==> slot.value < |uploadFiles| && row.id == uploadFiles[slot.value].id
      requires slot.None? ==> row.id == nextFileId
      modifies this`uploadFiles, this`nextFileId, this`disk
      ensures Valid()
      ensures slot.None? ==> ok && uploadFiles == old(uploadFiles) + [row] && disk == old(disk)
      ensures nextFileId == old(nextFileId) + (if slot.None? then 1 else 0)
      ensures slot.Some? ==>
        var previous := old(uploadFiles)[slot.value].fileName;
        && ok == !(previous in old(disk) && previous in unavailable)
        && uploadFiles == (if ok then old(uploadFiles)[slot.value := row] else old(uploadFiles))
        && disk == (if ok then old(disk) - {previous} else old(disk))
    {
      if slot.None? {
        uploadFiles := uploadFiles + [row];
        nextFileId := nextFileId + 1;
        ok := true;
      } else {
        ok := RemoveResource(uploadFiles[slot.value].fileName);
        if ok {
          uploadFiles := uploadFiles[slot.value := row];
        }
      }
    }

    // -------------------------------------------------------------------
    // Endpoints
    // -------------------------------------------------------------------

    /** PUT {uploadId}/files/{index}: store a whole file in a slot.  A new
        slot is added, or the existing one loses its old file and points at
        the new path (its content type is left as it was). */
    method UploadWholeFile(uploadId: TaskId, index: Int32, file: FormFile) returns (status: int)
      requires Valid()
      modifies this, fileLocks
      ensures Valid()
      ensures fileLocks.monitors == old(fileLocks.monitors)
      ensures uploadTasks == old(uploadTasks)
      ensures nextFileId == old(nextFileId) + (|uploadFiles| - |old(uploadFiles)|)
      ensures
        var rejection := UploadRejection(TaskOf(old(uploadTasks), uploadId), index, file.contentType, WholeFile);
        var path := SynthesizeResourcePath(workingDirectory, uploadId, index, file.fileName);
        var slot := FindByIndex(old(uploadFiles), uploadId, index);
        if rejection.Some? then
          status == rejection.value && uploadFiles == old(uploadFiles) && disk == old(disk)
        else if path.None? then
          status == 500 && uploadFiles == old(uploadFiles) && disk == old(disk)
        else if slot.None? then
          && uploadFiles == old(uploadFiles) + [UploadFile(old(nextFileId), uploadId, index, path.value, file.contentType, false)]
          && status == (if path.value in unavailable then 500 else 204)
          && disk == (if path.value in unavailable then old(disk) else old(disk)[path.value := file.content])
        else
          var previous := old(uploadFiles)[slot.value].fileName;
          if previous in old(disk) && previous in unavailable then
            status == 500 && uploadFiles == old(uploadFiles) && disk == old(disk)
          else
            && uploadFiles == old(uploadFiles)[slot.value := old(uploadFiles)[slot.value].(chunked := false, fileName := path.value)]
            && status == (if path.value in unavailable then 500 else 204)
            && disk == (if path.value in unavailable then old(disk) - {previous}
                        else (old(disk) - {previous})[path.value := file.content])
      ensures SlotsUnique(old(uploadFiles)) ==> SlotsUnique(uploadFiles)
      ensures status == 204 ==>
        && SlotAt(uploadFiles, uploadId, index).Some?
        && !SlotAt(uploadFiles, uploadId, index).value.chunked
        && var p := SlotAt(uploadFiles, uploadId, index).value.fileName;
           p in disk && disk[p] == file.content
    {
      var uploadTask := TaskOf(uploadTasks, uploadId);
      var rejection := UploadRejection(uploadTask, index, file.contentType, WholeFile);
      if rejection.Some? {
        return rejection.value;
      }
      var slot := FindByIndex(uploadFiles, uploadId, index);
      var filePath := SynthesizeResourcePath(workingDirectory, uploadId, index, file.fileName);
      if filePath.None? {
        return 500;
      }
      var row := if slot.None? then UploadFile(nextFileId, uploadId, index, filePath.value, file.contentType, false)
                 else uploadFiles[slot.value].(chunked := false, fileName := filePath.value);
      var placed := PlaceSlot(slot, row);
      if !placed {
        return 500;
      }
      var written := UploadResourceAsync(filePath.value, file.content);
      status := if written then 204 else 500;
      FindByIndexAfterWrite(old(uploadFiles), uploadFiles, uploadId, index, slot);
    }

    /** POST {uploadId}/files/{index}/chunk: start a chunked upload.  The
        existing slot is looked up by its identity key; a found slot loses
        its old file and takes the new path and content type, otherwise a
        new slot is added; then the file is pre-allocated. */
    method UploadFileChunked(uploadId: TaskId, index: Int32, request: ChunkedUploadRequest) returns (reply: ChunkedReply)
      requires Valid()
      modifies this, fileLocks
      ensures Valid()
      ensures fileLocks.monitors == old(fileLocks.monitors)
      ensures uploadTasks == old(uploadTasks)
      ensures nextFileId == old(nextFileId) + (|uploadFiles| - |old(uploadFiles)|)
      ensures
        var rejection := UploadRejection(TaskOf(old(uploadTasks), uploadId), index, request.contentType, ChunkedInit);
        var path := SynthesizeResourcePath(workingDirectory, uploadId, index, request.fileName);
        var slot := FindById(old(uploadFiles), uploadId, index);
        if rejection.Some? then
          reply == ChunkedRejected(rejection.value) && uploadFiles == old(uploadFiles) && disk == old(disk)
        else if path.None? then
          reply == ChunkedRejected(500) && uploadFiles == old(uploadFiles) && disk == old(disk)
        else
          var previous := if slot.Some? then Some(old(uploadFiles)[slot.value].fileName) else None;
          if previous.Some? && previous.value in old(disk) && previous.value in unavailable then
            reply == ChunkedRejected(500) && uploadFiles == old(uploadFiles) && disk == old(disk)
          else
            var cleared := if previous.Some? then old(disk) - {previous.value} else old(disk);
            var created := path.value !in cleared && path.value !in unavailable && request.fileBytes >= 0;
            && uploadFiles == (if slot.None? then
                 old(uploadFiles) + [UploadFile(old(nextFileId), uploadId, index, path.value, request.contentType, true)]
               else
                 old(uploadFiles)[slot.value := old(uploadFiles)[slot.value].(
                   chunked := true, fileName := path.value, contentType := request.contentType)])
            && disk == (if path.value in cleared || path.value in unavailable then cleared
                        else cleared[path.value := Zeros(if request.fileBytes >= 0 then request.fileBytes else 0)])
            && reply == (if created then ChunkPlan(RequiredChunkCount(request.fileBytes), ChunkSize)
                         else ChunkedRejected(500))
    {
      var uploadTask := TaskOf(uploadTasks, uploadId);
      var rejection := UploadRejection(uploadTask, index, request.contentType, ChunkedInit);
      if rejection.Some? {
        return ChunkedRejected(rejection.value);
      }
      var slot := FindById(uploadFiles, uploadId, index);
      var filePath := SynthesizeResourcePath(workingDirectory, uploadId, index, request.fileName);
      if filePath.None? {
        return ChunkedRejected(500);
      }
      var row := if slot.None? then UploadFile(nextFileId, uploadId, index, filePath.value, request.contentType, true)
                 else uploadFiles[slot.value].(chunked := true, fileName := filePath.value, contentType := request.contentType);
      var placed := PlaceSlot(slot, row);
      if !placed {
        return ChunkedRejected(500);
      }
      var created := CreateChunkedFileAsync(filePath.value, request.fileBytes);
      if !created {
        return ChunkedRejected(500);
      }
      reply := ChunkPlan(RequiredChunkCount(request.fileBytes), ChunkSize);
    }

    /** PUT {uploadId}/files/{index}/chunk/{chunkIndex}: write one chunk into
        the file named by the chunk's own file name.  The slot must exist
        and have been started as chunked; the job itself is not checked. */
    method UploadDocumentChunk(uploadId: TaskId, index: Int32, chunkIndex: Int32, chunk: FormFile) returns (status: int)
      requires Valid()
      modifies this, fileLocks
      ensures Valid()
      ensures fileLocks.monitors == old(fileLocks.monitors)
      ensures uploadTasks == old(uploadTasks) && uploadFiles == old(uploadFiles)
      ensures
        var slot := SlotAt(uploadFiles, uploadId, index);
        var path := SynthesizeResourcePath(workingDirectory, uploadId, index, chunk.fileName);
        if slot.None? then status == 404 && disk == old(disk)
        else if !slot.value.chunked then status == 400 && disk == old(disk)
        else if path.None? then status == 500 && disk == old(disk)
        else
          var ok := path.value in old(disk) && path.value !in unavailable && ChunkOffset(chunkIndex) >= 0;
          && status == (if ok then 204 else 500)
          && disk == (if ok then old(disk)[path.value := WriteAt(old(disk)[path.value], ChunkOffset(chunkIndex), chunk.content)]
                      else old(disk))
    {
      var slot := FindByIndex(uploadFiles, uploadId, index);
      if slot.None? {
        return 404;
      }
      if !uploadFiles[slot.value].chunked {
        return 400;
      }
      var filePath := SynthesizeResourcePath(workingDirectory, uploadId, index, chunk.fileName);
      if filePath.None? {
        return 500;
      }
      var written := UploadChunkAsync(filePath.value, chunkIndex, chunk.content);
      status := if written then 204 else 500;
    }

    /** The first part of POST {uploadId}/commit: the job must exist, its
        stored index parse and its document type be found; then every index
        0..FileCount-1 needs a slot whose file opens.  The pages and the file
        type are what the document is stored with.  With no pages, picking
        the file type reads past the empty page list and throws (500). */
    method PrepareCommit(uploadId: TaskId, indexParsed: bool, documentTypeFound: bool) returns (plan: CommitPlan)
      ensures uploadId !in uploadTasks ==> plan == CommitRejected(404)
      ensures uploadId in uploadTasks && !indexParsed ==> plan == CommitRejected(500)
      ensures uploadId in uploadTasks && indexParsed && !documentTypeFound ==> plan == CommitRejected(404)
      ensures plan.Ready? <==>
        && uploadId in uploadTasks && indexParsed && documentTypeFound
        && uploadTasks[uploadId].fileCount >= 1
        && forall i :: 0 <= i < uploadTasks[uploadId].fileCount ==> SlotReady(uploadId, i)
      ensures plan.Ready? ==>
        && |plan.files| == uploadTasks[uploadId].fileCount
        && (forall i :: 0 <= i < |plan.files| ==> SlotAt(uploadFiles, uploadId, i) == Some(plan.files[i]))
        && plan.fileType == CommitFileType(plan.files)
      ensures plan == CommitRejected(400) ==>
        exists i :: 0 <= i < uploadTasks[uploadId].fileCount && SlotAt(uploadFiles, uploadId, i).None?
          && forall j :: 0 <= j < i ==> SlotReady(uploadId, j)
      // the first slot that is not ready decides the status: 400 when it is missing ...
      ensures uploadId in uploadTasks && indexParsed && documentTypeFound &&
        (exists i :: 0 <= i < uploadTasks[uploadId].fileCount && SlotAt(uploadFiles, uploadId, i).None?
          && forall j :: 0 <= j < i ==> SlotReady(uploadId, j))
        ==> plan == CommitRejected(400)
      // ... 500 when its file cannot be opened
      ensures uploadId in uploadTasks && indexParsed && documentTypeFound &&
        (exists i :: 0 <= i < uploadTasks[uploadId].fileCount && SlotAt(uploadFiles, uploadId, i).Some?
          && !SlotReady(uploadId, i) && forall j :: 0 <= j < i ==> SlotReady(uploadId, j))
        ==> plan == CommitRejected(500)
      // a job with no files has no first page to classify
      ensures uploadId in uploadTasks && indexParsed && documentTypeFound && uploadTasks[uploadId].fileCount <= 0 ==>
        plan == CommitRejected(500)
      ensures plan == CommitRejected(404) ==> uploadId !in uploadTasks || (indexParsed && !documentTypeFound)
      ensures plan == CommitRejected(500) ==>
        && uploadId in uploadTasks
        && (!indexParsed || uploadTasks[uploadId].fileCount <= 0 ||
            exists i :: 0 <= i < uploadTasks[uploadId].fileCount && SlotAt(uploadFiles, uploadId, i).Some?
              && !SlotReady(uploadId, i) && forall j :: 0 <= j < i ==> SlotReady(uploadId, j))
      ensures plan.CommitRejected? ==> plan.status in {400, 404, 500}
    {
      if uploadId !in uploadTasks {
        return CommitRejected(404);
      }
      if !indexParsed {
        return CommitRejected(500);
      }
      if !documentTypeFound {
        return CommitRejected(404);
      }
      var fileCount := uploadTasks[uploadId].fileCount;
      var files: seq<UploadFile> := [];
      var i := 0;
      while i < fileCount
        invariant 0 <= i && (i == 0 || i <= fileCount)
        invariant |files| == i
        invariant forall j :: 0 <= j < i ==> SlotReady(uploadId, j) && SlotAt(uploadFiles, uploadId, j) == Some(files[j])
      {
        var result := SlotAt(uploadFiles, uploadId, i);
        if result.None? {
          assert !SlotReady(uploadId, i);
          return CommitRejected(400);
        }
        if result.value.fileName !in disk || result.value.fileName in unavailable {
          assert !SlotReady(uploadId, i);
          return CommitRejected(500);
        }
        files := files + [result.value];
        i := i + 1;
      }
      if |files| == 0 {
        assert fileCount <= 0;
        return CommitRejected(500);
      }
      assert i == fileCount;
      assert forall j :: 0 <= j < fileCount ==> SlotReady(uploadId, j);
      plan := Ready(files, CommitFileType(files));
    }

    /** Slot `i` of the job exists and its file can be opened. */
    ghost predicate SlotReady(uploadId: TaskId, i: int)
      reads this
    {
      var slot := SlotAt(uploadFiles, uploadId, i);
      slot.Some? && slot.value.fileName in disk && slot.value.fileName !in unavailable
    }
  }

  /** After UploadWholeFile has added or rewritten the slot for (job, index), the
      look-up by index finds that slot, and slots stay unique. */
  lemma FindByIndexAfterWrite(before: seq<UploadFile>, after: seq<UploadFile>, uploadId: TaskId, index: Int32, slot: Option<nat>)
    requires slot == FindByIndex(before, uploadId, index)
    requires slot.None? ==> exists f :: after == before + [f] && f.uploadTaskId == uploadId && f.index == index
    requires slot.Some? ==>
      && |after| == |before|
      && after[slot.value].uploadTaskId == uploadId
      && after[slot.value].index == index
      && forall j :: 0 <= j < |before| && j != slot.value ==> after[j] == before[j]
    ensures FindByIndex(after, uploadId, index).Some?
    ensures slot.Some? ==> FindByIndex(after, uploadId, index) == slot
    ensures slot.None? ==> FindByIndex(after, uploadId, index) == Some(|before|)
    ensures SlotsUnique(before) ==> SlotsUnique(after)
  {
    var k := FindByIndex(after, uploadId, index);
    if slot.None? {
      assert after[|before|].uploadTaskId == uploadId && after[|before|].index == index;
    } else {
      assert after[slot.value].uploadTaskId == uploadId && after[slot.value].index == index;
    }
  }
}
