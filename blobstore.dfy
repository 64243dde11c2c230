/** The deduplicating blob upload: binary content stored in GridFS under its
    content hash, written only when that id is not there yet. */
module BlobStorage {
  import opened Wrappers
  import opened Bytes
  import opened FileSystem

  datatype StorageError =
    | FileNotFound(path: string)   // `open` of a missing path
    | OsError(reason: string)      // any other failure of `open`
    | FileExists(id: string)       // GridFS `put` under an id already taken

  /** GridFS as a map from file id to content. `puts` counts the calls of
      `put`, the physical writes. */
  class GridFs {
    var files: map<string, seq<Byte>>
    ghost var puts: nat

    constructor ()
      ensures files == map[] && puts == 0
    {
      files := map[];
      puts := 0;
    }

    /** `fs.exists(_id=id)`. */
    function Exists(id: string): (r: bool)
      reads this
      ensures r <==> id in files
    {
      id in files
    }

    /** `fs.put(data, _id=id)`: stores the content and returns its id; an id
        already taken is refused. */
    method Put(data: seq<Byte>, id: string) returns (r: Result<string, StorageError>)
      modifies this
      ensures puts == old(puts) + 1
      ensures id in old(files) ==> r == Err(FileExists(id)) && files == old(files)
      ensures id !in old(files) ==> r == Ok(id) && files == old(files)[id := data]
    {
      puts := puts + 1;
      if id in files {
        return Err(FileExists(id));
      }
      files := files[id := data];
      r := Ok(id);
    }
  }

  /** One upload's effect: the files afterwards, the value returned, and
      whether it called `put`. */
  datatype UploadOutcome = UploadOutcome(files: map<string, seq<Byte>>, result: Result<string, StorageError>, put: bool)

  /** `upload_file`: an existing hash short-circuits; otherwise the file's
      bytes are stored under the hash. */
  function Upload(files: map<string, seq<Byte>>, filePath: string, fileHash: string, disk: Disk): (r: UploadOutcome)
    ensures fileHash in files ==> r == UploadOutcome(files, Ok(fileHash), false)
    ensures r.put <==> fileHash !in files && filePath in disk && disk[filePath].Regular?
    ensures r.put ==> r.files == files[fileHash := disk[filePath].content] && r.result == Ok(fileHash)
    ensures !r.put ==> r.files == files
    ensures forall id :: id in files ==> id in r.files && r.files[id] == files[id]
    ensures forall id :: id in r.files && id != fileHash ==> id in files
  {
    if fileHash in files then UploadOutcome(files, Ok(fileHash), false)
    else if filePath !in disk then UploadOutcome(files, Err(FileNotFound(filePath)), false)
    else match disk[filePath]
      case Unreadable(reason) => UploadOutcome(files, Err(OsError(reason)), false)
      case Regular(content) => UploadOutcome(files[fileHash := content], Ok(fileHash), true)
  }

  /** Two uploads of one hash call `put` at most once, exactly once when the
      hash was new and the file readable; the second changes nothing and,
      when the first succeeded, returns the hash. */
  lemma UploadTwice(files: map<string, seq<Byte>>, filePath: string, fileHash: string, disk: Disk)
    ensures var o1 := Upload(files, filePath, fileHash, disk);
            var o2 := Upload(o1.files, filePath, fileHash, disk);
            && !(o1.put && o2.put)
            && (o1.put || o2.put <==> fileHash !in files && filePath in disk && disk[filePath].Regular?)
            && o2.files == o1.files
            && (o1.result.Ok? ==> o2.result == Ok(fileHash))
  {
  }

  /** The storage service over one GridFS bucket. */
  class MongoService {
    const fs: GridFs

    constructor (fs: GridFs)
      ensures this.fs == fs
    {
      this.fs := fs;
    }

    /** `upload_file`: an existence check keyed by the hash, then a put of
        the file's bytes under that hash. */
    method UploadFile(filePath: string, fileHash: string, disk: Disk) returns (r: Result<string, StorageError>)
      modifies fs
      ensures var o := Upload(old(fs.files), filePath, fileHash, disk);
              && fs.files == o.files
              && r == o.result
              && fs.puts == old(fs.puts) + (if o.put then 1 else 0)
    {
      var fileExists := fs.Exists(fileHash);
      if fileExists {
        return Ok(fileHash);
      }
      if filePath !in disk {
        return Err(FileNotFound(filePath));
      }
      match disk[filePath]
      case Unreadable(reason) =>
        return Err(OsError(reason));
      case Regular(content) =>
        r := fs.Put(content, fileHash);
    }
  }
}
