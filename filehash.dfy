/** The preprocessor: the chunked content hash of an audio file, which
    reports failures as strings, and the message handler that computes it. */
module Preprocessor {
  import opened Wrappers
  import opened Bytes
  import opened Values
  import opened FileSystem

  /** `hashlib`: the algorithm names it accepts and, per algorithm, the hex
      digest of all bytes fed to the hasher. */
  datatype Hashlib = Hashlib(algorithms: set<string>, hexDigest: (string, seq<Byte>) -> string)

  const DefaultAlgorithm: string := "sha256"
  const DefaultBufferSize: int := 65536

  const NotFoundPrefix: string := "Error: File not found at "
  const ErrorPrefix: string := "An error occurred: "
  /** The messages of the exceptions the model raises itself. */
  const ReadLengthMessage: string := "read length must be non-negative or -1"

  /** The name Python reports for the type of a value. */
  function TypeName(v: Value): string
  {
    match v
    case VNull => "NoneType"
    case VBool(_) => "bool"
    case VInt(_) => "int"
    case VStr(_) => "str"
    case VTime(_) => "datetime"
    case VList(_) => "list"
  }

  /** The `TypeError` of `open` for a path that is not a string. */
  function NotAPathMessage(v: Value): string
  {
    "expected str, bytes or os.PathLike object, not " + TypeName(v)
  }

  function UnsupportedMessage(algorithm: string): string
  {
    "unsupported hash type " + algorithm
  }

  /** `f.read(n)` at offset `pos` of a regular file: up to `n` bytes, all
      the rest for `n == -1`, nothing at the end. */
  function Read(content: seq<Byte>, pos: nat, n: int): (r: seq<Byte>)
    requires pos <= |content| && n >= -1
    ensures pos + |r| <= |content| && r == content[pos..pos + |r|]
    ensures n > 0 && pos < |content| ==> 0 < |r| <= n
    ensures n == -1 ==> pos + |r| == |content|
  {
    if n == -1 then content[pos..]
    else if pos + n <= |content| then content[pos..pos + n]
    else content[pos..]
  }

  /** The non-empty chunks the loop reads from offset `pos` onward. */
  function ChunksFrom(content: seq<Byte>, pos: nat, n: int): seq<seq<Byte>>
    requires pos <= |content| && n >= -1
    decreases |content| - pos
  {
    var c := Read(content, pos, n);
    if c == [] then [] else [c] + ChunksFrom(content, pos + |c|, n)
  }

  /** One read that returns bytes is the first chunk. */
  lemma ChunksStep(content: seq<Byte>, pos: nat, n: int)
    requires pos <= |content| && n >= -1 && Read(content, pos, n) != []
    ensures ChunksFrom(content, pos, n) == [Read(content, pos, n)] + ChunksFrom(content, pos + |Read(content, pos, n)|, n)
  {
  }

  /** For any buffer size but 0, the chunks put back together are the rest
      of the file. */
  lemma {:induction false} ChunksCover(content: seq<Byte>, pos: nat, n: int)
    requires pos <= |content| && n >= -1 && n != 0
    ensures Flatten(ChunksFrom(content, pos, n)) == content[pos..]
    decreases |content| - pos
  {
    var c := Read(content, pos, n);
    if c != [] {
      ChunksStep(content, pos, n);
      ChunksCover(content, pos + |c|, n);
      var rest := ChunksFrom(content, pos + |c|, n);
      assert ([c] + rest)[0] == c && ([c] + rest)[1..] == rest;
      assert content[pos..] == c + content[pos + |c|..];
    } else {
      assert pos == |content|;
    }
  }

  /** A chunk the loop reads: non-empty and, for a positive buffer size,
      at most that long. */
  predicate ChunkOk(c: seq<Byte>, n: int)
  {
    c != [] && (n > 0 ==> |c| <= n)
  }

  /** Every chunk is non-empty and at most `n` bytes long; with buffer size
      0 there is none. */
  lemma {:induction false} ChunksBounded(content: seq<Byte>, pos: nat, n: int)
    requires pos <= |content| && n >= -1
    ensures n == 0 ==> ChunksFrom(content, pos, n) == []
    ensures forall k :: 0 <= k < |ChunksFrom(content, pos, n)| ==> ChunkOk(ChunksFrom(content, pos, n)[k], n)
    decreases |content| - pos
  {
    var c := Read(content, pos, n);
    if c != [] {
      ChunksStep(content, pos, n);
      ChunksBounded(content, pos + |c|, n);
      OkCons(c, ChunksFrom(content, pos + |c|, n), ChunksFrom(content, pos, n), n);
    }
  }

  /** A good chunk in front of good chunks gives good chunks. */
  lemma OkCons(c: seq<Byte>, rest: seq<seq<Byte>>, all: seq<seq<Byte>>, n: int)
    requires all == [c] + rest && ChunkOk(c, n)
    requires forall k :: 0 <= k < |rest| ==> ChunkOk(rest[k], n)
    ensures forall k :: 0 <= k < |all| ==> ChunkOk(all[k], n)
  {
    forall k | 0 <= k < |all|
      ensures ChunkOk(all[k], n)
    {
      if k > 0 {
        assert all[k] == rest[k - 1];
      }
    }
  }

  /** What `get_audio_file_hash` returns: the digest of the whole file, or
      one of its error strings. */
  function FileHash(filePath: Value, algorithm: string, bufferSize: int, disk: Disk, lib: Hashlib): string
  {
    if algorithm !in lib.algorithms then ErrorPrefix + UnsupportedMessage(algorithm)
    else if !filePath.VStr? then ErrorPrefix + NotAPathMessage(filePath)
    else if filePath.s !in disk then NotFoundPrefix + filePath.s
    else match disk[filePath.s]
      case Unreadable(reason) => ErrorPrefix + reason
      case Regular(content) =>
        if bufferSize < -1 then ErrorPrefix + ReadLengthMessage
        else if bufferSize == 0 then lib.hexDigest(algorithm, [])
        else lib.hexDigest(algorithm, content)
  }

  /** Nothing raises: a missing file gives the not-found string, every
      other failure a string starting "An error occurred: ", and a readable
      file with a valid buffer size and algorithm gives the digest of its
      bytes (of no bytes for buffer size 0). */
  lemma FailuresAreStrings(filePath: Value, algorithm: string, bufferSize: int, disk: Disk, lib: Hashlib)
    ensures var r := FileHash(filePath, algorithm, bufferSize, disk, lib);
      if algorithm in lib.algorithms && filePath.VStr? && filePath.s !in disk then
        r == NotFoundPrefix + filePath.s
      else if algorithm in lib.algorithms && filePath.VStr? && disk[filePath.s].Regular? && bufferSize >= -1 then
        r == lib.hexDigest(algorithm, if bufferSize == 0 then [] else disk[filePath.s].content)
      else
        |r| >= |ErrorPrefix| && r[..|ErrorPrefix|] == ErrorPrefix
  {
  }

  /** A message whose `file_path` is `None` (a JSON `null`) gets the
      `TypeError` text of `open`. */
  lemma NonePathMessage(algorithm: string, bufferSize: int, disk: Disk, lib: Hashlib)
    requires algorithm in lib.algorithms
    ensures FileHash(VNull, algorithm, bufferSize, disk, lib)
         == ErrorPrefix + "expected str, bytes or os.PathLike object, not NoneType"
  {
    assert NotAPathMessage(VNull) == "expected str, bytes or os.PathLike object, not NoneType";
  }

  /** The digest does not depend on the buffer size, for every size the
      reads accept except 0. */
  lemma BufferSizeIrrelevant(filePath: Value, algorithm: string, n1: int, n2: int, disk: Disk, lib: Hashlib)
    requires n1 == -1 || n1 > 0
    requires n2 == -1 || n2 > 0
    ensures FileHash(filePath, algorithm, n1, disk, lib) == FileHash(filePath, algorithm, n2, disk, lib)
  {
  }

  /** Byte-identical files have the same digest, wherever they are. */
  lemma SameContentSameHash(p1: string, p2: string, algorithm: string, n: int, disk: Disk, lib: Hashlib)
    requires p1 in disk && p2 in disk && disk[p1].Regular? && disk[p1] == disk[p2]
    requires algorithm in lib.algorithms && n >= -1
    ensures FileHash(VStr(p1), algorithm, n, disk, lib) == FileHash(VStr(p2), algorithm, n, disk, lib)
  {
  }

  /** `get_audio_file_hash`: feeds the file to the hasher chunk by chunk
      until a read comes back empty. `fed` is what `hasher.update` got. */
  method GetAudioFileHash(filePath: Value, algorithm: string, bufferSize: int, disk: Disk, lib: Hashlib)
    returns (r: string, ghost fed: seq<seq<Byte>>)
    ensures r == FileHash(filePath, algorithm, bufferSize, disk, lib)
    ensures (algorithm in lib.algorithms && filePath.VStr? && filePath.s in disk && disk[filePath.s].Regular?
             && bufferSize >= -1) ==> fed == ChunksFrom(disk[filePath.s].content, 0, bufferSize)
  {
    fed := [];
    if algorithm !in lib.algorithms {
      return ErrorPrefix + UnsupportedMessage(algorithm), fed;
    }
    if !filePath.VStr? {
      return ErrorPrefix + NotAPathMessage(filePath), fed;
    }
    var path := filePath.s;
    if path !in disk {
      return NotFoundPrefix + path, fed;
    }
    match disk[path]
    case Unreadable(reason) =>
      return ErrorPrefix + reason, fed;
    case Regular(content) =>
      if bufferSize < -1 {
        return ErrorPrefix + ReadLengthMessage, fed;
      }
      var hashed;
      hashed, fed := HashChunks(content, bufferSize);
      r := lib.hexDigest(algorithm, hashed);
  }

  /** Feeding one more non-empty read keeps `fed` a prefix of the chunks. */
  lemma FeedStep(content: seq<Byte>, pos: nat, n: int, fed: seq<seq<Byte>>)
    requires pos <= |content| && n >= -1 && Read(content, pos, n) != []
    requires fed + ChunksFrom(content, pos, n) == ChunksFrom(content, 0, n)
    ensures (fed + [Read(content, pos, n)]) + ChunksFrom(content, pos + |Read(content, pos, n)|, n) == ChunksFrom(content, 0, n)
  {
    var data := Read(content, pos, n);
    ChunksStep(content, pos, n);
    ShiftFirst(fed, data, ChunksFrom(content, pos + |data|, n), ChunksFrom(content, pos, n), ChunksFrom(content, 0, n));
  }

  /** Moving the first element of the unread part onto the read part. */
  lemma ShiftFirst<T>(done: seq<T>, c: T, rest: seq<T>, todo: seq<T>, all: seq<T>)
    requires todo == [c] + rest && done + todo == all
    ensures (done + [c]) + rest == all
  {
    assert done + ([c] + rest) == (done + [c]) + rest;
  }

  /** The read loop of `get_audio_file_hash`: reads `n` bytes at a time
      and feeds each non-empty read to the hasher, whose input ends up
      being the chunks of the file. */
  method HashChunks(content: seq<Byte>, n: int) returns (hashed: seq<Byte>, ghost fed: seq<seq<Byte>>)
    requires n >= -1
    ensures fed == ChunksFrom(content, 0, n)
    ensures hashed == Flatten(fed)
    ensures hashed == if n == 0 then [] else content
  {
    hashed, fed := [], [];
    var pos := 0;
    while true
      invariant pos <= |content|
      invariant hashed == Flatten(fed)
      invariant fed + ChunksFrom(content, pos, n) == ChunksFrom(content, 0, n)
      decreases |content| - pos
    {
      var data := Read(content, pos, n);
      if data == [] {
        break;
      }
      FeedStep(content, pos, n, fed);
      FlattenAppend(fed, data);
      hashed := hashed + data;
      fed := fed + [data];
      pos := pos + |data|;
    }
    assert fed + [] == fed;
    if n != 0 {
      ChunksCover(content, 0, n);
      assert content[0..] == content;
    }
  }

  datatype ProcessError = KeyError(key: string)

  /** `proses`: reads `file_path` and `meta_data` from the message and
      hashes the file with the defaults; the digest is not used further. */
  method Process(data: Document, disk: Disk, lib: Hashlib) returns (r: Result<(), ProcessError>, ghost fileHash: string)
    ensures "file_path" !in data ==> r == Err(KeyError("file_path"))
    ensures "file_path" in data && "meta_data" !in data ==> r == Err(KeyError("meta_data"))
    ensures "file_path" in data && "meta_data" in data ==>
              r == Ok(()) && fileHash == FileHash(data["file_path"], DefaultAlgorithm, DefaultBufferSize, disk, lib)
  {
    fileHash := "";
    if "file_path" !in data {
      return Err(KeyError("file_path")), fileHash;
    }
    var path := data["file_path"];
    if "meta_data" !in data {
      return Err(KeyError("meta_data")), fileHash;
    }
    var metaData := data["meta_data"];
    ghost var fed;
    var h;
    h, fed := GetAudioFileHash(path, DefaultAlgorithm, DefaultBufferSize, disk, lib);
    fileHash := h;
    r := Ok(());
  }
}
