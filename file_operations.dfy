/**
 * Operations on one file (src/sdk/operations/file.rs): the requests that
 * get, delete and update a file, and the download loop that streams the
 * file's content to a new local file chunk by chunk.
 *
 * The HTTP client and the response stream are outside this model: the
 * client's answer to the download request is a parameter, and the response
 * body is the sequence of chunks it delivers. The local file system is an
 * in-memory map from paths to contents.
 */
module FileOperations {
  import opened Wrappers
  import SdkError
  import FileModel
  import Utf8

  type Bytes = seq<Utf8.byte>

  const FilesEndpoint := "https://api.box.com/2.0/files/"
  const ContentSuffix := "/content"

  /** The URL that gets, deletes and updates file `id`. */
  function FileUrl(id: string): (url: string)
    ensures |url| == |FilesEndpoint| + |id|
    ensures url[..|FilesEndpoint|] == FilesEndpoint
    ensures url[|FilesEndpoint|..] == id
  {
    FilesEndpoint + id
  }

  /** The URL that downloads the content of file `id`. */
  function ContentUrl(id: string): (url: string)
    ensures |url| == |FilesEndpoint| + |id| + |ContentSuffix|
    ensures url[..|FilesEndpoint|] == FilesEndpoint
    ensures url[|FilesEndpoint|..|url| - |ContentSuffix|] == id
    ensures url[|url| - |ContentSuffix|..] == ContentSuffix
  {
    FilesEndpoint + id + ContentSuffix
  }

  /** Different files have different URLs, for both kinds of URL. */
  lemma UrlsInjective(a: string, b: string)
    ensures FileUrl(a) == FileUrl(b) ==> a == b
    ensures ContentUrl(a) == ContentUrl(b) ==> a == b
  {
    if ContentUrl(a) == ContentUrl(b) {
      var u := ContentUrl(a);
      assert a == u[|FilesEndpoint|..|u| - |ContentSuffix|];
    }
  }

  /** The content URL is the file URL with "/content" appended. */
  lemma ContentUrlExtendsFileUrl(id: string)
    ensures ContentUrl(id) == FileUrl(id) + ContentSuffix
  {
  }

  datatype HttpMethod = Get | Put | Delete

  /** What an operation asks the client to send: the JSON body of a PUT is the update. */
  datatype Request = Request(verb: HttpMethod, url: string, body: Option<FileModel.FileUpdates>)

  /** `FileOperation`: the operations on the file with this id. */
  datatype FileOperation = FileOperation(id: string)
  {
    /** `get`: a GET of the file URL; the answer is decoded as a `File`. */
    function GetRequest(): (r: Request)
      ensures r.verb == Get && r.url == FileUrl(id) && r.body.None?
    {
      Request(Get, FileUrl(id), None)
    }

    /** `delete`: a DELETE of the file URL. */
    function DeleteRequest(): (r: Request)
      ensures r.verb == Delete && r.url == FileUrl(id) && r.body.None?
    {
      Request(Delete, FileUrl(id), None)
    }

    /** `update`: a PUT of the file URL carrying the updates as its body. */
    function UpdateRequest(updates: FileModel.FileUpdates): (r: Request)
      ensures r.verb == Put && r.url == FileUrl(id) && r.body == Some(updates)
    {
      Request(Put, FileUrl(id), Some(updates))
    }

    /** `download`: a GET of the content URL. */
    function DownloadRequest(): (r: Request)
      ensures r.verb == Get && r.url == ContentUrl(id) && r.body.None?
    {
      Request(Get, ContentUrl(id), None)
    }
  }

  /**
   * Get, delete and update all address the same resource, named by the id
   * that follows the files endpoint; download addresses its content.
   */
  lemma RequestsAddressTheFile(op: FileOperation, other: FileOperation, updates: FileModel.FileUpdates)
    ensures op.GetRequest().url == op.DeleteRequest().url == op.UpdateRequest(updates).url
    ensures op.GetRequest().url[|FilesEndpoint|..] == op.id
    ensures op.DownloadRequest().url == op.GetRequest().url + ContentSuffix
    ensures op.GetRequest().url == other.GetRequest().url ==> op == other
    ensures op.DownloadRequest() == other.DownloadRequest() ==> op == other
  {
    UrlsInjective(op.id, other.id);
  }

  /** The bytes written so far: the chunks in the order they arrived. */
  function Concat(chunks: seq<Bytes>): Bytes
  {
    if chunks == [] then [] else Concat(chunks[..|chunks| - 1]) + chunks[|chunks| - 1]
  }

  lemma {:induction false} ConcatAppend(a: seq<Bytes>, b: seq<Bytes>)
    ensures Concat(a + b) == Concat(a) + Concat(b)
  {
    if b == [] {
      assert a + b == a;
    } else {
      assert (a + b)[..|a + b| - 1] == a + b[..|b| - 1];
      ConcatAppend(a, b[..|b| - 1]);
    }
  }

  /** The length of the written content is the sum of the chunk sizes. */
  function TotalSize(chunks: seq<Bytes>): nat
  {
    if chunks == [] then 0 else TotalSize(chunks[..|chunks| - 1]) + |chunks[|chunks| - 1]|
  }

  /**
   * Byte for byte: byte `j` of chunk `k` lands at the offset of the bytes
   * of the chunks before it, plus `j`.
   */
  lemma {:induction false} ConcatAt(chunks: seq<Bytes>, k: nat, j: nat)
    requires k < |chunks| && j < |chunks[k]|
    ensures |Concat(chunks)| == TotalSize(chunks)
    ensures TotalSize(chunks[..k]) + j < |Concat(chunks)|
    ensures Concat(chunks)[TotalSize(chunks[..k]) + j] == chunks[k][j]
  {
    var n := |chunks|;
    ConcatSize(chunks);
    ConcatSize(chunks[..k]);
    ConcatSize(chunks[..k + 1]);
    assert chunks[..k + 1] == chunks[..k] + [chunks[k]];
    assert chunks == chunks[..k + 1] + chunks[k + 1..];
    ConcatAppend(chunks[..k + 1], chunks[k + 1..]);
    assert chunks[..k + 1][..k] == chunks[..k];
  }

  lemma {:induction false} ConcatSize(chunks: seq<Bytes>)
    ensures |Concat(chunks)| == TotalSize(chunks)
  {
    if chunks != [] {
      ConcatSize(chunks[..|chunks| - 1]);
    }
  }

  /**
   * One way a body may arrive: cut into pieces of the given sizes (a size
   * larger than what remains takes the rest), whatever is left after the
   * last size forming a last piece.
   */
  function Split(data: Bytes, sizes: seq<nat>): seq<Bytes>
    decreases |sizes|
  {
    if sizes == [] then (if data == [] then [] else [data])
    else
      var n := if sizes[0] < |data| then sizes[0] else |data|;
      [data[..n]] + Split(data[n..], sizes[1..])
  }

  /**
   * Streaming round trip: however the body is cut into chunks, writing the
   * chunks in order reconstructs the body exactly.
   */
  lemma {:induction false} SplitThenConcat(data: Bytes, sizes: seq<nat>)
    ensures Concat(Split(data, sizes)) == data
    decreases |sizes|
  {
    if sizes == [] {
      if data != [] {
        assert Concat([data]) == Concat([]) + data;
      }
    } else {
      var n := if sizes[0] < |data| then sizes[0] else |data|;
      SplitThenConcat(data[n..], sizes[1..]);
      ConcatAppend([data[..n]], Split(data[n..], sizes[1..]));
      assert Concat([data[..n]]) == Concat([]) + data[..n];
      assert data[..n] + data[n..] == data;
    }
  }

  /** A response body being read: the chunks it delivers, then either the end or a failure. */
  datatype ChunkStream = ChunkStream(chunks: seq<Bytes>, failure: Option<SdkError.ReqwestError>)
  {
    /** `Response::chunk` for the `i`-th pull: a chunk, the end marker, or a network error. */
    function Pull(i: nat): (r: Result<Option<Bytes>, SdkError.ReqwestError>)
      ensures i < |chunks| ==> r == Ok(Some(chunks[i]))
      ensures i >= |chunks| ==> (r.Err? <==> failure.Some?) && (r.Ok? ==> r.value.None?)
      ensures i >= |chunks| && failure.Some? ==> r == Err(failure.value)
    {
      if i < |chunks| then Ok(Some(chunks[i]))
      else if failure.Some? then Err(failure.value)
      else Ok(None)
    }
  }

  /**
   * The local files, path to contents. `FileIo` errors have no `From`
   * conversion into the SDK error in the source and are kept apart here.
   */
  class Disk {
    var files: map<string, Bytes>

    constructor (files: map<string, Bytes>)
      ensures this.files == files
    {
      this.files := files;
    }

    /** Opening with `create_new(true)`: fails when `path` exists, else creates it empty. */
    method CreateNew(path: string) returns (created: bool)
      modifies this
      ensures created <==> path !in old(files)
      ensures files == if created then old(files)[path := []] else old(files)
    {
      created := path !in files;
      if created {
        files := files[path := []];
      }
    }

    /** `write_all` on the open file: appends `bytes`. */
    method WriteAll(path: string, bytes: Bytes)
      requires path in files
      modifies this
      ensures files == old(files)[path := old(files)[path] + bytes]
    {
      files := files[path := files[path] + bytes];
    }
  }

  datatype IoError = AlreadyExists

  datatype DownloadError = Sdk(error: SdkError.Error) | FileIo(io: IoError)

  /**
   * `FileOperation::download`: asks the client for the content URL, creates
   * `path` (which must not exist yet), then writes every chunk of the body in
   * order until the end marker. A network failure while streaming leaves the
   * chunks received so far on disk.
   */
  method Download(op: FileOperation, get: string -> Result<ChunkStream, SdkError.Error>, disk: Disk, path: string)
    returns (r: Result<(), DownloadError>)
    modifies disk
    ensures get(ContentUrl(op.id)).Err? ==>
              r == Err(Sdk(get(ContentUrl(op.id)).error)) && disk.files == old(disk.files)
    ensures get(ContentUrl(op.id)).Ok? && path in old(disk.files) ==>
              r == Err(FileIo(AlreadyExists)) && disk.files == old(disk.files)
    ensures get(ContentUrl(op.id)).Ok? && path !in old(disk.files) ==>
              var body := get(ContentUrl(op.id)).value;
              && disk.files == old(disk.files)[path := Concat(body.chunks)]
              && (r.Ok? <==> body.failure.None?)
              && (r.Err? ==> r.error == Sdk(SdkError.FromReqwest(body.failure.value)))
  {
    var url := ContentUrl(op.id);
    var response := get(url);
    if response.Err? {
      return Err(Sdk(response.error));
    }
    var body := response.value;
    var created := disk.CreateNew(path);
    if !created {
      return Err(FileIo(AlreadyExists));
    }
    var i := 0;
    var pulled := body.Pull(i);
    while pulled.Ok? && pulled.value.Some?
      invariant 0 <= i <= |body.chunks|
      invariant pulled == body.Pull(i)
      invariant path in disk.files
      invariant disk.files == old(disk.files)[path := Concat(body.chunks[..i])]
      decreases |body.chunks| - i
    {
      var bytes := pulled.value.value;
      disk.WriteAll(path, bytes);
      assert body.chunks[..i + 1][..i] == body.chunks[..i];
      i := i + 1;
      pulled := body.Pull(i);
    }
    assert body.chunks[..i] == body.chunks;
    if pulled.Err? {
      return Err(Sdk(SdkError.FromReqwest(pulled.error)));
    }
    return Ok(());
  }
}
