/**
  The file system of the host: a tree without symbolic links. Handles on directories (os.Root) and
  files follow the node they were opened on, also when it is renamed.
  */
module HostFs {
  import opened Wrappers
  import opened ConfigModel

  /** The elements of an absolute path. */
  type Path = seq<string>

  datatype Node = Dir | File(content: Bytes)

  datatype Host = Host(
    nodes: map<Path, Node>,
    roots: map<Root, Path>,  // where the directory of each handle is, unless it was removed
    files: map<nat, Path>)   // where the file of each descriptor is, unless it was removed

  function Parent(p: Path): Path
    requires p != []
  {
    p[..|p| - 1]
  }

  predicate IsDir(nodes: map<Path, Node>, p: Path) {
    p in nodes && nodes[p].Dir?
  }

  predicate IsFile(nodes: map<Path, Node>, p: Path) {
    p in nodes && nodes[p].File?
  }

  /** The root is a directory, and so is what any other node lies in. */
  predicate Tree(nodes: map<Path, Node>) {
    IsDir(nodes, []) && forall p :: p in nodes && p != [] ==> IsDir(nodes, Parent(p))
  }

  predicate HostInv(h: Host) {
    && Tree(h.nodes)
    && (forall r :: r in h.roots ==> IsDir(h.nodes, h.roots[r]))
    && (forall fd :: fd in h.files ==> IsFile(h.nodes, h.files[fd]))
  }

  datatype Status = Done | Exists | Failed

  // ---------------------------------------------------------------- operations

  /** The path is free and its directory exists. */
  predicate CanAdd(nodes: map<Path, Node>, p: Path) {
    p != [] && p !in nodes && IsDir(nodes, Parent(p))
  }

  function Mkdir(h: Host, p: Path): (Host, Status) {
    if p in h.nodes then (h, Exists)
    else if CanAdd(h.nodes, p) then (h.(nodes := h.nodes[p := Dir]), Done)
    else (h, Failed)
  }

  /** Opens the file for writing, creates it if need be and truncates it. */
  function Create(h: Host, p: Path, fd: nat): (Host, Status) {
    if IsFile(h.nodes, p) || CanAdd(h.nodes, p)
    then (h.(nodes := h.nodes[p := File([])], files := h.files[fd := p]), Done)
    else (h, Failed)
  }

  /** Data at an offset of a file; a gap before it is filled with zeros. */
  datatype Chunk = Chunk(off: nat, data: Bytes) {
    function End(): nat {
      off + |data|
    }

    predicate Covers(k: int) {
      off <= k < End()
    }
  }

  function Patched(content: Bytes, c: Chunk): Bytes {
    if c.data == [] then content
    else
      seq(if |content| < c.End() then c.End() else |content|, k requires 0 <= k =>
        if c.Covers(k) then c.data[k - c.off] else if k < |content| then content[k] else 0)
  }

  function PatchedAll(content: Bytes, chunks: seq<Chunk>): Bytes {
    if |chunks| == 0 then content else Patched(PatchedAll(content, chunks[..|chunks| - 1]), chunks[|chunks| - 1])
  }

  /** Writes through a descriptor; the data of a removed file is lost. */
  function Store(h: Host, fd: nat, c: Chunk): Host {
    if fd in h.files && IsFile(h.nodes, h.files[fd])
    then h.(nodes := h.nodes[h.files[fd] := File(Patched(h.nodes[h.files[fd]].content, c))])
    else h
  }

  function StoreAll(h: Host, fd: nat, chunks: seq<Chunk>): Host {
    if |chunks| == 0 then h else Store(StoreAll(h, fd, chunks[..|chunks| - 1]), fd, chunks[|chunks| - 1])
  }

  predicate HasChild(nodes: map<Path, Node>, p: Path) {
    exists q :: q in nodes && q != [] && Parent(q) == p
  }

  /** Removes a file or an empty directory. */
  function Remove(h: Host, p: Path): (Host, Status) {
    if p == [] || p !in h.nodes || HasChild(h.nodes, p) then (h, Failed)
    else (WithoutNode(h, p), Done)
  }

  /** The node is gone, and so are the handles on it. */
  function WithoutNode(h: Host, p: Path): Host {
    Host(h.nodes - {p},
         map r | r in h.roots && h.roots[r] != p :: h.roots[r],
         map fd | fd in h.files && h.files[fd] != p :: h.files[fd])
  }

  function Relocate(p: Path, src: Path, dst: Path): Path {
    if src <= p then dst + p[|src|..] else p
  }

  /** The subtree at `src`, now at `dst`, among the other nodes except what `dst` was. */
  function Moved(nodes: map<Path, Node>, src: Path, dst: Path): map<Path, Node> {
    map q | q in (set p | p in nodes :: Relocate(p, src, dst)) &&
            (if dst <= q then src + q[|dst|..] in nodes else q in nodes) ::
      if dst <= q then nodes[src + q[|dst|..]] else nodes[q]
  }

  /**
    When os.Rename succeeds: the source is there, nothing is moved into itself, the target's
    directory is there, and the target is free or a file that a file replaces.
    */
  predicate CanRename(nodes: map<Path, Node>, src: Path, dst: Path) {
    && src in nodes && src != [] && dst != [] && !(src < dst)
    && IsDir(nodes, Parent(dst))
    && (dst in nodes ==> nodes[dst].File? && nodes[src].File?)
  }

  function Rename(h: Host, src: Path, dst: Path): (Host, Status) {
    if !CanRename(h.nodes, src, dst) then (h, Failed)
    else if src == dst then (h, Done)
    else (WithMoved(h, Moved(h.nodes, src, dst), src, dst), Done)
  }

  /** The handles follow the nodes; a replaced file is gone. */
  function WithMoved(h: Host, nodes: map<Path, Node>, src: Path, dst: Path): Host {
    Host(nodes,
         map r | r in h.roots :: Relocate(h.roots[r], src, dst),
         map fd | fd in h.files && h.files[fd] != dst :: Relocate(h.files[fd], src, dst))
  }

  // ---------------------------------------------------------------- the tree stays a tree

  lemma {:induction false} AncestorsAreDirs(nodes: map<Path, Node>, p: Path, q: Path)
    requires Tree(nodes) && q in nodes && p < q
    ensures IsDir(nodes, p)
    decreases |q|
  {
    if p != Parent(q) {
      AncestorsAreDirs(nodes, p, Parent(q));
    }
  }

  /** Nothing lies under a path that is no directory. */
  lemma NothingBelow(nodes: map<Path, Node>, p: Path)
    requires Tree(nodes) && !IsDir(nodes, p)
    ensures forall q :: q in nodes ==> !(p < q)
  {
    forall q | q in nodes && p < q
      ensures false
    {
      AncestorsAreDirs(nodes, p, q);
    }
  }

  /** A move in closed form: where each node of the new tree comes from. */
  ghost predicate IsMove(nodes: map<Path, Node>, moved: map<Path, Node>, src: Path, dst: Path) {
    && (forall q :: dst + q in moved <==> src + q in nodes)
    && (forall q :: src + q in nodes ==> moved[dst + q] == nodes[src + q])
    && (forall p :: !(dst <= p) ==> (p in moved <==> p in nodes && !(src <= p)))
    && (forall p :: !(dst <= p) && !(src <= p) && p in nodes ==> moved[p] == nodes[p])
  }

  lemma MovedNodes(nodes: map<Path, Node>, src: Path, dst: Path)
    requires Tree(nodes) && CanRename(nodes, src, dst) && src != dst
    ensures IsMove(nodes, Moved(nodes, src, dst), src, dst)
  {
    var moved := Moved(nodes, src, dst);
    NotInside(nodes, src, dst);
    forall q
      ensures dst + q in moved <==> src + q in nodes
      ensures src + q in nodes ==> moved[dst + q] == nodes[src + q]
    {
      assert (dst + q)[|dst|..] == q && (src + q)[|src|..] == q;
      if src + q in nodes {
        assert Relocate(src + q, src, dst) == dst + q;
      }
    }
    forall p | !(dst <= p)
      ensures p in moved <==> p in nodes && !(src <= p)
    {
      if p in nodes && !(src <= p) {
        assert Relocate(p, src, dst) == p;
      }
      if p in moved {
        var o :| o in nodes && Relocate(o, src, dst) == p;
        assert !(src <= o);
      }
    }
  }

  /** The target is not an ancestor of the source: it would be an existing directory. */
  lemma NotInside(nodes: map<Path, Node>, src: Path, dst: Path)
    requires Tree(nodes) && CanRename(nodes, src, dst) && src != dst
    ensures !(dst <= src) && !(src <= dst)
    ensures forall q :: q in nodes ==> !(dst < q)
  {
    if dst < src {
      AncestorsAreDirs(nodes, dst, src);
      assert false;
    }
    NothingBelow(nodes, dst);
  }

  lemma MovedIsTree(nodes: map<Path, Node>, moved: map<Path, Node>, src: Path, dst: Path)
    requires Tree(nodes) && CanRename(nodes, src, dst) && src != dst && IsMove(nodes, moved, src, dst)
    ensures Tree(moved)
  {
    NotInside(nodes, src, dst);
    forall p | p in moved && p != []
      ensures IsDir(moved, Parent(p))
    {
      if dst < p {
        var q := p[|dst|..];
        assert p == dst + q && Parent(p) == dst + Parent(q);
        assert IsDir(nodes, src + Parent(q)) by {
          assert Parent(src + q) == src + Parent(q);
        }
      } else {
        OutsideParent(nodes, src, dst, p);
      }
    }
  }

  /** The directory of a node that was not moved, or of the target, was not moved either. */
  lemma OutsideParent(nodes: map<Path, Node>, src: Path, dst: Path, p: Path)
    requires Tree(nodes) && CanRename(nodes, src, dst) && !(dst <= src) && !(src <= dst)
    requires p != [] && !(dst < p) && (p == dst || (p in nodes && !(src <= p)))
    ensures !(dst <= Parent(p)) && !(src <= Parent(p)) && IsDir(nodes, Parent(p))
  {
  }

  lemma MkdirKeeps(h: Host, p: Path)
    requires HostInv(h)
    ensures HostInv(Mkdir(h, p).0)
  {
  }

  lemma CreateKeeps(h: Host, p: Path, fd: nat)
    requires HostInv(h)
    ensures HostInv(Create(h, p, fd).0)
  {
  }

  lemma StoreKeeps(h: Host, fd: nat, c: Chunk)
    requires HostInv(h)
    ensures HostInv(Store(h, fd, c))
  {
    if fd in h.files && IsFile(h.nodes, h.files[fd]) {
      FileReplaced(h.nodes, h.files[fd], Patched(h.nodes[h.files[fd]].content, c));
    }
  }

  lemma FileReplaced(nodes: map<Path, Node>, p: Path, content: Bytes)
    requires Tree(nodes) && IsFile(nodes, p)
    ensures var nodes' := nodes[p := File(content)];
            && Tree(nodes')
            && forall q :: (IsDir(nodes, q) ==> IsDir(nodes', q)) && (IsFile(nodes, q) ==> IsFile(nodes', q))
  {
  }

  lemma {:induction false} StoreAllOutcome(h: Host, fd: nat, chunks: seq<Chunk>)
    requires fd in h.files && IsFile(h.nodes, h.files[fd])
    ensures var p := h.files[fd];
            StoreAll(h, fd, chunks) == h.(nodes := h.nodes[p := File(PatchedAll(h.nodes[p].content, chunks))])
  {
    if |chunks| == 0 {
      assert h.nodes == h.nodes[h.files[fd] := h.nodes[h.files[fd]]];
    } else {
      StoreAllOutcome(h, fd, chunks[..|chunks| - 1]);
    }
  }

  /** A chunk that is not empty ends after byte `k`. */
  ghost predicate Reaches(chunks: seq<Chunk>, k: int) {
    exists i :: 0 <= i < |chunks| && chunks[i].data != [] && k < chunks[i].End()
  }

  /** Chunk `i` is the last one that has byte `k`. */
  ghost predicate LastCover(chunks: seq<Chunk>, i: int, k: int) {
    && 0 <= i < |chunks| && chunks[i].Covers(k)
    && forall j :: i < j < |chunks| ==> !chunks[j].Covers(k)
  }

  /**
    Any pieces at any offsets: a byte is that of the last piece which has it, else what was there,
    else zero; and the file ends where the old content and the non-empty pieces do.
    */
  lemma {:induction false} PatchedBytes(content: Bytes, chunks: seq<Chunk>, k: nat)
    ensures ByteOf(content, chunks, PatchedAll(content, chunks), k)
  {
    if |chunks| > 0 {
      var init, last := chunks[..|chunks| - 1], chunks[|chunks| - 1];
      PatchedBytes(content, init, k);
      assert chunks == init + [last];
      NextByte(content, init, last, PatchedAll(content, init), k);
    }
  }

  /** Byte `k` of a file with the content to which the chunks were written, if there is one. */
  ghost predicate ByteOf(content: Bytes, chunks: seq<Chunk>, got: Bytes, k: nat) {
    && (k < |got| <==> k < |content| || Reaches(chunks, k))
    && (forall i :: LastCover(chunks, i, k) ==> k < |got| && got[k] == chunks[i].data[k - chunks[i].off])
    && (k < |got| && !Covered(chunks, k) ==> got[k] == if k < |content| then content[k] else 0)
  }

  lemma NextByte(content: Bytes, init: seq<Chunk>, last: Chunk, before: Bytes, k: nat)
    requires ByteOf(content, init, before, k)
    ensures ByteOf(content, init + [last], Patched(before, last), k)
  {
    OnePatchByte(before, last, k);
    OneMoreChunk(init, last, k);
  }

  lemma OnePatchByte(before: Bytes, c: Chunk, k: nat)
    ensures var got := Patched(before, c);
            && (k < |got| <==> k < |before| || (c.data != [] && k < c.End()))
            && (c.Covers(k) ==> k < |got| && got[k] == c.data[k - c.off])
            && (k < |got| && !c.Covers(k) ==> got[k] == if k < |before| then before[k] else 0)
  {
  }

  /** Which chunk is the last to have the byte, when one more comes. */
  lemma OneMoreChunk(init: seq<Chunk>, last: Chunk, k: nat)
    ensures Reaches(init + [last], k) <==> Reaches(init, k) || (last.data != [] && k < last.End())
    ensures Covered(init + [last], k) <==> Covered(init, k) || last.Covers(k)
    ensures forall i :: LastCover(init + [last], i, k) <==>
              if last.Covers(k) then i == |init| else LastCover(init, i, k)
  {
    var chunks := init + [last];
    assert forall i :: 0 <= i < |init| ==> chunks[i] == init[i];
    assert chunks[|init|] == last;
    if i :| 0 <= i < |init| && init[i].Covers(k) {
      assert chunks[i].Covers(k);
    }
    if i :| 0 <= i < |init| && init[i].data != [] && k < init[i].End() {
      assert chunks[i].data != [] && k < chunks[i].End();
    }
  }

  /** Every chunk is a piece of the content. */
  predicate PiecesOf(content: Bytes, chunks: seq<Chunk>) {
    forall i :: 0 <= i < |chunks| ==>
      chunks[i].End() <= |content| && chunks[i].data == content[chunks[i].off..chunks[i].End()]
  }

  predicate Covered(chunks: seq<Chunk>, k: int) {
    exists i :: 0 <= i < |chunks| && chunks[i].Covers(k)
  }

  /** Pieces that cover the content give it, in whatever order they come and however often. */
  lemma PiecesGiveContent(content: Bytes, chunks: seq<Chunk>)
    requires PiecesOf(content, chunks) && forall k :: 0 <= k < |content| ==> Covered(chunks, k)
    ensures PatchedAll([], chunks) == content
  {
    PiecesSoFar(content, chunks);
    var got := PatchedAll([], chunks);
    if |content| > 0 {
      assert Covered(chunks, |content| - 1);
    }
    forall k | 0 <= k < |content|
      ensures k < |got| && got[k] == content[k]
    {
      assert Covered(chunks, k);
    }
  }

  lemma {:induction false} PiecesSoFar(content: Bytes, chunks: seq<Chunk>)
    requires PiecesOf(content, chunks)
    ensures var got := PatchedAll([], chunks);
            && |got| <= |content|
            && forall k :: 0 <= k < |content| && Covered(chunks, k) ==> k < |got| && got[k] == content[k]
  {
    if |chunks| > 0 {
      var init, last := chunks[..|chunks| - 1], chunks[|chunks| - 1];
      assert PiecesOf(content, init);
      PiecesSoFar(content, init);
      var before, got := PatchedAll([], init), PatchedAll([], chunks);
      assert last.End() <= |content| && last.data == content[last.off..last.End()];
      forall k | 0 <= k < |content| && Covered(chunks, k)
        ensures k < |got| && got[k] == content[k]
      {
        if !last.Covers(k) {
          var i :| 0 <= i < |chunks| && chunks[i].Covers(k);
          assert i < |init| && init[i].Covers(k);
          assert Covered(init, k);
        }
      }
    }
  }

  lemma RemoveKeeps(h: Host, p: Path)
    requires HostInv(h)
    ensures HostInv(Remove(h, p).0)
  {
    if p != [] && p in h.nodes && !HasChild(h.nodes, p) {
      ChildlessRemoved(h.nodes, p);
      RootsSurvive(h, p);
      FilesSurvive(h, p);
    }
  }

  lemma RootsSurvive(h: Host, p: Path)
    requires forall r :: r in h.roots ==> IsDir(h.nodes, h.roots[r])
    ensures forall r :: r in WithoutNode(h, p).roots ==> IsDir(h.nodes - {p}, WithoutNode(h, p).roots[r])
  {
  }

  lemma FilesSurvive(h: Host, p: Path)
    requires forall fd :: fd in h.files ==> IsFile(h.nodes, h.files[fd])
    ensures forall fd :: fd in WithoutNode(h, p).files ==> IsFile(h.nodes - {p}, WithoutNode(h, p).files[fd])
  {
  }

  lemma ChildlessRemoved(nodes: map<Path, Node>, p: Path)
    requires Tree(nodes) && p != [] && !HasChild(nodes, p)
    ensures Tree(nodes - {p})
  {
    forall q | q in nodes - {p} && q != []
      ensures IsDir(nodes - {p}, Parent(q))
    {
      assert IsDir(nodes, Parent(q)) && Parent(q) != p;
    }
  }

  lemma RenameKeeps(h: Host, src: Path, dst: Path)
    requires HostInv(h)
    ensures HostInv(Rename(h, src, dst).0)
  {
    if CanRename(h.nodes, src, dst) && src != dst {
      var h' := Rename(h, src, dst).0;
      MovedNodes(h.nodes, src, dst);
      HandlesKept(h, h'.nodes, src, dst);
    }
  }

  lemma HandlesKept(h: Host, moved: map<Path, Node>, src: Path, dst: Path)
    requires HostInv(h) && CanRename(h.nodes, src, dst) && src != dst && IsMove(h.nodes, moved, src, dst)
    ensures HostInv(WithMoved(h, moved, src, dst))
  {
    MovedIsTree(h.nodes, moved, src, dst);
    HandlesFollow(h.nodes, moved, src, dst);
  }

  /** Every node but a replaced target is found again where Relocate says. */
  lemma HandlesFollow(nodes: map<Path, Node>, moved: map<Path, Node>, src: Path, dst: Path)
    requires Tree(nodes) && CanRename(nodes, src, dst) && src != dst && IsMove(nodes, moved, src, dst)
    ensures forall p {:trigger Relocate(p, src, dst)} :: p in nodes && p != dst ==>
              Relocate(p, src, dst) in moved && moved[Relocate(p, src, dst)] == nodes[p]
  {
    NotInside(nodes, src, dst);
    forall p | p in nodes && p != dst
      ensures Relocate(p, src, dst) in moved && moved[Relocate(p, src, dst)] == nodes[p]
    {
      if src <= p {
        assert p == src + p[|src|..];
      }
    }
  }
}
