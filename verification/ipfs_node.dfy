/**
 The IPFS node behind the bridge: its pin set, the blocks it holds and its mutable file tree, and
 the calls the bridge makes on it.  Every call is answered by the environment with a `Reply`.
 */
module IpfsNode {
  import opened Options
  import opened Paths

  type byte = b: int | 0 <= b < 256
  type Bytes = seq<byte>

  /**
   A content identifier.  All the bridge relies on is that equal contents, and only equal contents,
   get equal identifiers; the free constructor says exactly that and nothing about the digest.
   */
  datatype Cid = CidOf(content: Bytes)

  /** A call may succeed, fail without effect, or take effect while its answer is lost. */
  datatype Reply = Done | Failed | Lost

  /**
   `files` and `dirs` are the entries of the file tree by path; the root is a directory that is not
   listed.
   */
  datatype Node = Node(pinned: set<Cid>, blocks: map<Cid, Bytes>, files: map<Path, Cid>, dirs: set<Path>)

  const EMPTY_NODE := Node({}, map[], map[], {})

  predicate Exists(n: Node, path: Path)
  {
    path in n.files || path in n.dirs
  }

  /** `add` stores the block and pins it. */
  function Add(n: Node, content: Bytes, reply: Reply): (Node, bool)
  {
    if reply.Failed? then (n, false)
    else
      var cid := CidOf(content);
      (n.(pinned := n.pinned + {cid}, blocks := n.blocks[cid := content]), reply.Done?)
  }

  /** `files cp` replaces a file, but neither a directory nor a file on the way down. */
  predicate CanLink(n: Node, path: Path)
  {
    path != [] && path !in n.dirs && forall f :: f in n.files ==> !(f < path)
  }

  function Above(path: Path): (r: set<Path>)
    ensures forall d :: d in r <==> d != [] && d < path
  {
    var r := set i | 0 < i < |path| :: path[..i];
    assert forall d :: d != [] && d < path ==> d == path[..|d|] && d in r;
    r
  }

  function Link(n: Node, path: Path, cid: Cid, reply: Reply): (Node, bool)
  {
    if reply.Failed? || !CanLink(n, path) then (n, false)
    else (n.(files := n.files[path := cid], dirs := n.dirs + Above(path)), reply.Done?)
  }

  /** `files rm` is recursive and reports a path that is not there. */
  function Unlink(n: Node, path: Path, reply: Reply): (Node, bool)
  {
    if reply.Failed? || path == [] || !Exists(n, path) then (n, false)
    else
      (n.(files := map p | p in n.files && !(path <= p) :: n.files[p],
          dirs := set d | d in n.dirs && !(path <= d)),
       reply.Done?)
  }

  /** `pin rm` reports an identifier that is not pinned. */
  function Unpin(n: Node, cid: Cid, reply: Reply): (Node, bool)
  {
    if reply.Failed? || cid !in n.pinned then (n, false)
    else (n.(pinned := n.pinned - {cid}), reply.Done?)
  }

  /** Garbage collection may drop any block that is not pinned. */
  function Collect(n: Node, doomed: set<Cid>): Node
  {
    n.(blocks := n.blocks - (doomed - n.pinned))
  }

  /** Adds the content and links it into the file tree. */
  function AddContent(n: Node, path: Path, content: Bytes, add: Reply, link: Reply): (Node, Option<Cid>)
  {
    var (added, ok) := Add(n, content, add);
    if !ok then (added, None)
    else
      var (linked, ok') := Link(added, path, CidOf(content), link);
      (linked, if ok' then Some(CidOf(content)) else None)
  }

  /** The client object: its methods change the remote node step by step. */
  class IpfsClient {
    var pinned: set<Cid>
    var blocks: map<Cid, Bytes>
    var files: map<Path, Cid>
    var dirs: set<Path>

    function Remote(): Node
      reads this
    {
      Node(pinned, blocks, files, dirs)
    }

    constructor ()
      ensures Remote() == EMPTY_NODE
    {
      pinned, blocks, files, dirs := {}, map[], map[], {};
    }

    method AddContentAt(path: Path, content: Bytes, add: Reply, link: Reply) returns (r: Option<Cid>)
      modifies this
      ensures (Remote(), r) == AddContent(old(Remote()), path, content, add, link)
    {
      if add.Failed? {
        return None;
      }
      var cid := CidOf(content);
      blocks := blocks[cid := content];
      pinned := pinned + {cid};
      if add.Lost? || link.Failed? || !CanLink(Remote(), path) {
        return None;
      }
      files := files[path := cid];
      dirs := dirs + Above(path);
      return if link.Done? then Some(cid) else None;
    }

    method UnlinkPath(path: Path, reply: Reply) returns (ok: bool)
      modifies this
      ensures (Remote(), ok) == Unlink(old(Remote()), path, reply)
    {
      if reply.Failed? || path == [] || !Exists(Remote(), path) {
        return false;
      }
      files := map p | p in files && !(path <= p) :: files[p];
      dirs := set d | d in dirs && !(path <= d);
      return reply.Done?;
    }

    method UnpinCid(cid: Cid, reply: Reply) returns (ok: bool)
      modifies this
      ensures (Remote(), ok) == Unpin(old(Remote()), cid, reply)
    {
      if reply.Failed? || cid !in pinned {
        return false;
      }
      pinned := pinned - {cid};
      return reply.Done?;
    }
  }
}
