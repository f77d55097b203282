/**
 * The pure parts of UploadController: the chunk size and chunk arithmetic,
 * the request checks shared by the upload endpoints, the slot look-ups on
 * the UploadFiles table, the file-type classifiers and the resource path.
 */
module UploadRules {
  import opened Wrappers
  import opened Text

  /** `const int ChunkSize`, shared by the chunk count and the write offset. */
  const ChunkSize: int := 1_000_000

  const Int32Modulus: int := 0x1_0000_0000
  type Int32 = x: int | -0x8000_0000 <= x < 0x8000_0000
  type Int64 = x: int | -0x8000_0000_0000_0000 <= x < 0x8000_0000_0000_0000

  /** An upload job (table UploadTasks); the job id is the Guid's text. */
  type TaskId = string
  datatype UploadTask = UploadTask(fileCount: Int32, jsonDocumentIndex: string)

  /** A file slot (table UploadFiles); `id` is the identity key. */
  datatype UploadFile = UploadFile(
    id: int, uploadTaskId: TaskId, index: Int32, fileName: string, contentType: string, chunked: bool)

  // ---------------------------------------------------------------------
  // Chunk arithmetic
  // ---------------------------------------------------------------------

  /** `(int)Math.Ceiling((double)fileBytes / ChunkSize)`, in integers: the
      fewest chunks of ChunkSize bytes that hold `fileBytes` bytes. */
  function RequiredChunkCount(fileBytes: nat): (count: nat)
    ensures count * ChunkSize >= fileBytes
    ensures count > 0 ==> (count - 1) * ChunkSize < fileBytes
  {
    (fileBytes + ChunkSize - 1) / ChunkSize
  }

  lemma RequiredChunkCountExample()
    ensures RequiredChunkCount(2_500_000) == 3
    ensures RequiredChunkCount(3_000_000) == 3
    ensures RequiredChunkCount(0) == 0
  {
  }

  /** Two's-complement wrap-around of a C# `int` result. */
  function WrapInt32(x: int): (r: Int32)
    ensures (x - r) % Int32Modulus == 0
    ensures -0x8000_0000 <= x < 0x8000_0000 ==> r == x
  {
    (x + 0x8000_0000) % Int32Modulus - 0x8000_0000
  }

  /** `chunkId * ChunkSize`, computed in 32-bit `int` arithmetic. */
  function ChunkOffset(chunkId: Int32): Int32 {
    WrapInt32(chunkId * ChunkSize)
  }

  /** The offset is exact up to chunk 2147 ... */
  lemma ChunkOffsetExact(chunkId: Int32)
    requires 0 <= chunkId <= 2147
    ensures ChunkOffset(chunkId) == chunkId * ChunkSize
  {
  }

  /** ... is negative from chunk 2148 to 4294, so the seek throws ... */
  lemma ChunkOffsetNegative(chunkId: Int32)
    requires 2148 <= chunkId <= 4294
    ensures ChunkOffset(chunkId) == chunkId * ChunkSize - Int32Modulus < 0
  {
  }

  /** ... and chunk 4295 lands inside chunk 0. */
  lemma ChunkOffsetWrapsIntoFirstChunk()
    ensures ChunkOffset(4295) == 32_704
  {
  }

  // ---------------------------------------------------------------------
  // Request checks
  // ---------------------------------------------------------------------

  /** IsImageMimeType: bmp, jpeg, png or tiff, ignoring case. */
  predicate IsImageMimeType(mimeType: string) {
    ToLower(mimeType) in {"image/bmp", "image/jpeg", "image/png", "image/tiff"}
  }

  lemma ImageMimeTypeIgnoresCase(a: string, b: string)
    requires EqualsIgnoreCase(a, b)
    ensures IsImageMimeType(a) == IsImageMimeType(b)
  {
  }

  /** The two endpoints that create a slot: a whole file, or a chunked file. */
  datatype Endpoint = WholeFile | ChunkedInit

  /** The status of the first check that rejects an upload request, in the
      order the endpoints make them: unknown job (404); index outside
      [0, FileCount) (400 for a whole file, 403 for a chunked file); blank
      content type (400, whole file only); several files of which this one
      is not an image (400).  None when the request passes. */
  function UploadRejection(task: Option<UploadTask>, index: Int32, contentType: string, endpoint: Endpoint)
    : (status: Option<int>)
    ensures status.None? <==>
      && task.Some?
      && 0 <= index < task.value.fileCount
      && (endpoint == WholeFile ==> !IsBlank(contentType))
      && (task.value.fileCount > 1 ==> IsImageMimeType(contentType))
    ensures task.None? ==> status == Some(404)
    ensures task.Some? && !(0 <= index < task.value.fileCount) ==>
      status == Some(if endpoint == WholeFile then 400 else 403)
    ensures status.Some? && task.Some? && 0 <= index < task.value.fileCount ==> status == Some(400)
  {
    if task.None? then Some(404)
    else if index < 0 || index >= task.value.fileCount then
      Some(if endpoint == WholeFile then 400 else 403)
    else if endpoint == WholeFile && IsBlank(contentType) then Some(400)
    else if task.value.fileCount > 1 && !IsImageMimeType(contentType) then Some(400)
    else None
  }

  // ---------------------------------------------------------------------
  // Slot look-ups (FirstOrDefault over the table, in key order)
  // ---------------------------------------------------------------------

  /** The position of the first row satisfying `p`, if any. */
  function FirstWhere(files: seq<UploadFile>, p: UploadFile -> bool): (k: Option<nat>)
    ensures k.Some? ==> k.value < |files| && p(files[k.value])
    ensures k.Some? ==> forall j :: 0 <= j < k.value ==> !p(files[j])
    ensures k.None? ==> forall j :: 0 <= j < |files| ==> !p(files[j])
  {
    if files == [] then None
    else if p(files[0]) then Some(0)
    else match FirstWhere(files[1..], p)
      case None => None
      case Some(j) => Some(j + 1)
  }

  /** `v.UploadTaskId == uploadId && v.Index == index` (whole-file upload,
      chunk upload and commit). */
  function FindByIndex(files: seq<UploadFile>, uploadId: TaskId, index: int): Option<nat> {
    FirstWhere(files, (f: UploadFile) => f.uploadTaskId == uploadId && f.index == index)
  }

  /** `v.Id == index && v.UploadTaskId == uploadId` (chunked upload start):
      the slot index is compared with the row's identity key. */
  function FindById(files: seq<UploadFile>, uploadId: TaskId, index: int): Option<nat> {
    FirstWhere(files, (f: UploadFile) => f.uploadTaskId == uploadId && f.id == index)
  }

  /** At most one slot per (job, index). */
  ghost predicate SlotsUnique(files: seq<UploadFile>) {
    forall i, j :: 0 <= i < j < |files| ==>
      files[i].uploadTaskId != files[j].uploadTaskId || files[i].index != files[j].index
  }

  /** The chunked start can miss an existing slot: with slot 0 stored under
      key 7, the look-up by key finds nothing and a second slot is added. */
  lemma ChunkedLookupMissesSlot(uploadId: TaskId)
    ensures var files := [UploadFile(7, uploadId, 0, "0_a.png", "image/png", true)];
      FindByIndex(files, uploadId, 0) == Some(0) && FindById(files, uploadId, 0) == None
  {
  }

  // ---------------------------------------------------------------------
  // File types
  // ---------------------------------------------------------------------

  /** The switch of GetOnBaseFileTypeNumber, -1 when no case matches. */
  function ListedFileTypeNumber(ext: string): int {
    if ext in {"txt", "rda"} then 1
    else if ext in {"bmp", "gif", "jpg", "jpeg", "tif", "tiff", "ico", "png"} then 2
    else if ext in {"doc", "docx"} then 12
    else if ext in {"xls", "xlsx", "xlsm", "xlsb", "csv"} then 13
    else if ext in {"ppt", "pptx"} then 14
    else if ext == "rtf" then 15
    else if ext == "pdf" then 16
    else if ext in {"htm", "html", "mht"} then 17
    else if ext == "avi" then 18
    else if ext == "wav" then 20
    else if ext == "pcl" then 21
    else if ext == "xml" then 32
    else if ext == "msg" then 35
    else if ext == "eml" then 63
    else if ext in {"rar", "7z", "bin", "zip"} then 70
    else -1
  }

  /** GetOnBaseFileTypeNumber: drop every '.', lower-case, look up; an
      unlisted extension is file type 2 (image). */
  function GetOnBaseFileTypeNumber(fileExtension: string): (n: int)
    ensures n in {1, 2, 12, 13, 14, 15, 16, 17, 18, 20, 21, 32, 35, 63, 70}
    ensures ListedFileTypeNumber(ToLower(RemoveChar(fileExtension, '.'))) == -1 ==> n == 2
  {
    var ret := ListedFileTypeNumber(ToLower(RemoveChar(fileExtension, '.')));
    if ret == -1 then 2 else ret
  }

  lemma {:induction false} RemoveAbsentChar(s: string, c: char)
    requires forall i :: 0 <= i < |s| ==> s[i] != c
    ensures RemoveChar(s, c) == s
  {
    if s != [] {
      RemoveAbsentChar(s[1..], c);
    }
  }

  /** Dots and letter case in the extension make no difference. */
  lemma FileTypeNumberIgnoresDotsAndCase(fileExtension: string)
    ensures GetOnBaseFileTypeNumber(fileExtension)
         == GetOnBaseFileTypeNumber(ToLower(RemoveChar(fileExtension, '.')))
  {
    var plain := ToLower(RemoveChar(fileExtension, '.'));
    RemoveAbsentChar(plain, '.');
    ToLowerIdempotent(RemoveChar(fileExtension, '.'));
  }

  lemma FileTypeNumberExample()
    ensures GetOnBaseFileTypeNumber(".PDF") == 16
  {
    assert RemoveChar(".PDF", '.') == "PDF";
    assert ToLower("PDF") == "pdf";
    assert ListedFileTypeNumber("pdf") == 16;
  }

  predicate IsDirectorySeparator(c: char) {
    c == '\\' || c == '/'
  }

  predicate EndsExtensionScan(c: char) {
    c == '.' || IsDirectorySeparator(c)
  }

  /** The position of the last '.' or separator in `path`. */
  function LastDotOrSeparator(path: string): (k: Option<nat>)
    ensures k.Some? ==> k.value < |path| && EndsExtensionScan(path[k.value])
    ensures k.Some? ==> forall j :: k.value < j < |path| ==> !EndsExtensionScan(path[j])
    ensures k.None? ==> forall j :: 0 <= j < |path| ==> !EndsExtensionScan(path[j])
  {
    if path == [] then None
    else if EndsExtensionScan(path[|path| - 1]) then Some(|path| - 1)
    else LastDotOrSeparator(path[..|path| - 1])
  }

  /** No '.' or separator follows position `k`. */
  predicate ExtensionStartsAt(path: string, k: nat) {
    forall j :: k < j < |path| ==> !EndsExtensionScan(path[j])
  }

  /** Path.GetExtension: from the last '.' after the last separator, with
      the dot; empty when there is none or the dot ends the path. */
  function GetExtension(path: string): (e: string)
    ensures e == "" || (2 <= |e| <= |path| && e[0] == '.' && e == path[|path| - |e|..])
    ensures forall i :: 1 <= i < |e| ==> e[i] != '.' && !IsDirectorySeparator(e[i])
    ensures forall k :: 0 <= k < |path| - 1 && path[k] == '.' && ExtensionStartsAt(path, k) ==> e == path[k..]
    ensures e == "" <==> !exists k :: 0 <= k < |path| - 1 && path[k] == '.' && ExtensionStartsAt(path, k)
  {
    match LastDotOrSeparator(path)
    case Some(k) => if path[k] == '.' && k < |path| - 1 then path[k..] else ""
    case None => ""
  }

  // ---------------------------------------------------------------------
  // Resource paths
  // ---------------------------------------------------------------------

  /** The file name of a slot's resource, `{index}_{fileName}`. */
  function ResourceName(index: int, fileName: string): (name: string)
    ensures 2 <= |name| && name[0] != '\\' && name[0] != '/'
  {
    Decimal(index) + "_" + fileName
  }

  /** The position of the first '_' in `s` (|s| when there is none). */
  function FirstUnderscore(s: string): (k: nat)
    ensures k <= |s|
    ensures forall n :: 0 <= n < k ==> s[n] != '_'
    ensures k < |s| ==> s[k] == '_'
  {
    if s == [] || s[0] == '_' then 0 else 1 + FirstUnderscore(s[1..])
  }

  /** Different (index, file name) pairs give different resource names. */
  lemma ResourceNameInjective(i: int, f: string, j: int, g: string)
    requires ResourceName(i, f) == ResourceName(j, g)
    ensures i == j && f == g
  {
    var s := ResourceName(i, f);
    var a, b := Decimal(i), Decimal(j);
    var k := FirstUnderscore(s);
    assert s[|a|] == '_' && forall n :: 0 <= n < |a| ==> s[n] == a[n] != '_';
    assert s[|b|] == '_' && forall n :: 0 <= n < |b| ==> s[n] == b[n] != '_';
    assert k == |a| == |b|;
    assert a == s[..k] == b;
    DecimalInjective(i, j);
    assert f == s[k + 1..] == g;
  }

  /** Path.Combine of two parts, when the second is neither empty nor
      rooted: a separator is inserted unless the first ends with one. */
  function Combine(first: string, second: string): string {
    if first == [] then second
    else if IsDirectorySeparator(first[|first| - 1]) then first + second
    else first + "\\" + second
  }

  /** SynthesizeResourcePath: `{WorkingDirectory}\{uploadId}\{index}_{fileName}`,
      or nothing when the working directory is not configured. */
  function SynthesizeResourcePath(workingDirectory: Option<string>, uploadId: TaskId, index: int, fileName: string)
    : (path: Option<string>)
    ensures path.Some? <==> workingDirectory.Some?
  {
    match workingDirectory
    case None => None
    case Some(dir) => Some(Combine(Combine(dir, uploadId), ResourceName(index, fileName)))
  }

  /** Two slots of one job with different indices (or file names) never
      share a resource path. */
  lemma ResourcePathsDistinct(dir: string, uploadId: TaskId, i: int, f: string, j: int, g: string)
    requires i != j || f != g
    ensures SynthesizeResourcePath(Some(dir), uploadId, i, f) != SynthesizeResourcePath(Some(dir), uploadId, j, g)
  {
    var prefix := Combine(dir, uploadId);
    var p, q := ResourceName(i, f), ResourceName(j, g);
    if Combine(prefix, p) == Combine(prefix, q) {
      var n := if prefix == [] || IsDirectorySeparator(prefix[|prefix| - 1]) then |prefix| else |prefix| + 1;
      assert p == Combine(prefix, p)[n..] == Combine(prefix, q)[n..] == q;
      ResourceNameInjective(i, f, j, g);
    }
  }
}
