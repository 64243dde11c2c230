/** The local files the services open: a path names a regular file's bytes,
    or something `open` refuses for another reason than absence. */
module FileSystem {
  import opened Bytes

  datatype FileEntry =
    | Regular(content: seq<Byte>)
    | Unreadable(reason: string)   // a directory, a permission error, ...

  /** What `open(path, "rb")` finds; a path outside the map does not exist. */
  type Disk = map<string, FileEntry>
}
