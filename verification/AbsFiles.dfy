/**
 The abstract file system: directories, named by their cluster, mapping keys to files with their
 bytes or to other directories, and what the read calls answer on it.
 */
module AbsFiles {
  import opened Words
  import opened FatLayout
  import opened FatOps

  datatype Item = FileItem(bytes: seq<Byte>) | DirItem(id: Word)
  type Dir = map<Key, Item>
  type AbsFs = map<nat, Dir>

  /** The file system with `x` stored under name `k` of directory `d`. */
  function Insert(a: AbsFs, d: nat, k: Key, x: Item): AbsFs
    requires d in a
  {
    var dir: Dir := a[d][k := x];
    a[d := dir]
  }

  /** The file system without name `k` of directory `d`. */
  function Erase(a: AbsFs, d: nat, k: Key): AbsFs
    requires d in a
  {
    var dir: Dir := a[d] - {k};
    a[d := dir]
  }

  /** What `read` answers: 1 not a file, 2 buffer too small, 3 not found. */
  function AbsRead(a: AbsFs, req: Request): int
    requires req.parent in a
  {
    var dir := a[req.parent];
    if req.key !in dir then 3
    else match dir[req.key]
      case DirItem(_) => 1
      case FileItem(bytes) => if req.size < |bytes| then 2 else 0
  }

  /** The buffer begins with the bytes of the file that `req` names. */
  predicate Delivered(a: AbsFs, req: Request, buf: seq<Byte>) {
    && req.parent in a && req.key in a[req.parent] && a[req.parent][req.key].FileItem?
    && var bytes := a[req.parent][req.key].bytes;
       |bytes| <= |buf| && buf[..|bytes|] == bytes
  }

  const ROOT_KEY: Key := RawKey.Key(ROOT_NAME, NO_EXT)

  /** What `read_directory` answers. */
  function AbsReadDir(a: AbsFs, req: Request): int
    requires req.parent in a
  {
    var dir := a[req.parent];
    if req.size != CLUSTER_SIZE then -1
    else if req.parent == ROOT && req.key == ROOT_KEY then 0
    else if req.key in dir then (if dir[req.key].DirItem? then 0 else 1)
    else if req.key == ZERO_KEY && |dir| < SLOTS - 2 then 1
    else 2
  }
}
