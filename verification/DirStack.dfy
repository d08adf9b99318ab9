/** The shell's directory stack as it updates it, and reading directories through it. */
module DirStack {
  import opened Words
  import opened FatLayout
  import opened Volumes
  import opened FatOps
  import opened FatView
  import opened FatRead
  import opened FatDriver
  import opened ShellPaths

  /** `out` is the directory that the request finds, or else what was there `before`. */
  ghost predicate ReadsTo(v: Volume, s: Shape, req: Request, before: Table, out: Table) {
    && req.parent < DISK_CLUSTERS
    && if ReadDirCode(v, req) == 0 then ReadDirCluster(v, req) in s.rank && ReadDirCluster(v, req) < DISK_CLUSTERS
            && out == Tabs(v)[ReadDirCluster(v, req)]
       else out == before
  }

  /** The system call for reading a directory. */
  method SysReadDir(d: Driver, req: Request, before: Table, ghost v: Volume, ghost s: Shape)
    returns (code: int, out: Table)
    requires Mounted(d, v, s) && req.parent in s.rank
    ensures ReadsTo(v, s, req, before, out) && code == ReadDirCode(v, req)
  {
    DirsUsed(v, s, req.parent);
    ReadDirIsAbstract(v, s, req);
    ViewKeys(v, s);
    code, out := d.ReadDirectory(req, before);
  }

  class DirTableStack {
    const element: array<Elem>
    /** Index of the top; all ones when the stack is empty. */
    var idxTop: Word

    ghost predicate Valid()
      reads this
    {
      element.Length == STACK_CAPACITY && (idxTop < STACK_CAPACITY || idxTop == 0xFFFF_FFFF)
    }

    ghost function Contents(): (st: seq<Elem>)
      reads this, element
      requires Valid()
    {
      element[..if idxTop == 0xFFFF_FFFF then 0 else idxTop + 1]
    }

    constructor ()
      ensures Valid() && Contents() == [] && fresh(element)
    {
      element := new Elem[STACK_CAPACITY](_ => ROOT_ELEM);
      idxTop := 0xFFFF_FFFF;
    }

    method Push(t: Table)
      requires Valid() && |Contents()| < STACK_CAPACITY
      modifies this, element
      ensures Valid() && Contents() == old(Contents()) + [SelfElem(t)]
    {
      idxTop := (idxTop + 1) % 0x1_0000_0000;
      element[idxTop] := Elem(t[0].ClusterNo(), t[0].key.name);
      assert element[..idxTop] == old(Contents());
    }

    /** Drops the top unless it is the only element. */
    method Pop() returns (ok: bool)
      requires Valid() && |Contents()| > 0
      modifies this
      ensures Valid() && ok == (|old(Contents())| > 1)
      ensures Contents() == if ok then old(Contents())[..|old(Contents())| - 1] else old(Contents())
    {
      if idxTop > 0 {
        idxTop := idxTop - 1;
        assert element[..idxTop + 1] == old(Contents())[..|old(Contents())| - 1];
        return true;
      }
      return false;
    }

    /** Reads the table of the directory on top; on failure the caller's table stays as it was. */
    method Peek(d: Driver, before: Table, ghost v: Volume, ghost s: Shape) returns (t: Table)
      requires Valid() && |Contents()| > 0 && Mounted(d, v, s) && PeekRequest(Contents()).parent in s.rank
      ensures ReadsTo(v, s, PeekRequest(Contents()), before, t)
    {
      var req := TopRequest();
      var code;
      code, t := SysReadDir(d, req, before, v, s);
    }

    /** The stack is that of directory `q` of a mounted volume that can be searched. */
    ghost predicate Names(d: Driver, v: Volume, s: Shape, q: nat)
      reads this, element, d, d.image, d.image.bytes, d.clusterMap
    {
      && Mounted(d, v, s) && q in s.rank && q < DISK_CLUSTERS && Searchable(Tabs(v), s)
      && Valid() && Contents() == StackTo(Tabs(v), s, q)
    }

    /** On the stack of a plain directory that is its table. */
    method PeekNamed(d: Driver, before: Table, ghost q: nat, ghost v: Volume, ghost s: Shape) returns (t: Table)
      requires Names(d, v, s, q)
      ensures t == Tabs(v)[q]
    {
      TopReads(v, s, q);
      t := Peek(d, before, v, s);
    }

    method TopRequest() returns (req: Request)
      requires Valid() && |Contents()| > 0
      ensures req == PeekRequest(Contents())
    {
      var parent := element[idxTop].cluster;
      if idxTop > 0 {
        parent := element[idxTop - 1].cluster;
      }
      req := Request(DirKey(element[idxTop].name), parent, CLUSTER_SIZE);
    }

    method DeepCopyFrom(src: DirTableStack)
      requires Valid() && src.Valid() && |src.Contents()| > 0 && src.element != element
      modifies this, element
      ensures Valid() && Contents() == old(src.Contents())
    {
      idxTop := src.idxTop;
      for i := 0 to src.idxTop + 1
        invariant idxTop == old(src.idxTop) == src.idxTop
        invariant forall j :: 0 <= j < i ==> element[j] == src.element[j]
        invariant src.element[..] == old(src.element[..])
      {
        element[i] := src.element[i];
      }
    }

    /** The whole stack from the root up, as it is printed. */
    method Path() returns (path: seq<Elem>)
      requires Valid() && |Contents()| > 0
      ensures path == Contents()
    {
      path := [];
      for i := 0 to idxTop + 1
        invariant path == element[..i]
      {
        path := path + [element[i]];
      }
    }
  }

  /** A new stack with the same contents. */
  method Copied(src: DirTableStack) returns (copy: DirTableStack)
    requires src.Valid() && |src.Contents()| > 0
    ensures fresh(copy) && fresh(copy.element) && copy.Valid() && copy.Contents() == src.Contents()
  {
    copy := new DirTableStack();
    copy.DeepCopyFrom(src);
  }
}
