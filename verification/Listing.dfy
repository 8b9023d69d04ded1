/**
  Directory listings of internal/handlers.go and their delivery in pages (listerAtFunc of
  internal/types.go).
  */
module Listing {
  import opened Wrappers
  import opened ConfigModel

  datatype Kind = Regular | Directory | Special
  datatype Stat = Stat(uid: bv32, gid: bv32, mode: bv32)

  /** A directory entry: the stat data it came with, and what a stat of its path finds. */
  datatype Entry = Entry(name: string, kind: Kind, sys: Option<Stat>, stat: Option<Stat>)

  /** A user and a group that files are read as. */
  datatype Reader = Reader(uid: bv32, gid: bv32)

  const OWNER_READ: bv32 := 0x100
  const GROUP_READ: bv32 := 0x20
  const OTHER_READ: bv32 := 0x4

  // ---------------------------------------------------------------- readable entries

  predicate CheckReadableStat(r: Reader, s: Stat) {
    if r.uid == 0 then true
    else if r.uid == s.uid && s.mode & OWNER_READ != 0 then true
    else if r.gid == s.gid && s.mode & GROUP_READ != 0 then true
    else s.mode & OTHER_READ != 0
  }

  /** The kernel's rule: only the first class that the reader belongs to counts. */
  predicate MayRead(r: Reader, s: Stat) {
    if r.uid == 0 then true
    else if r.uid == s.uid then s.mode & OWNER_READ != 0
    else if r.gid == s.gid then s.mode & GROUP_READ != 0
    else s.mode & OTHER_READ != 0
  }

  /** The first class of the reader may not read, but a later one of the classes it is in may. */
  predicate LaterClassOnly(r: Reader, s: Stat) {
    var owner, group, other := s.mode & OWNER_READ != 0, s.mode & GROUP_READ != 0, s.mode & OTHER_READ != 0;
    && r.uid != 0
    && if r.uid == s.uid then !owner && ((r.gid == s.gid && group) || other)
       else r.gid == s.gid && !group && other
  }

  /** The check never hides what the reader may read; it shows more exactly if only a later class may read. */
  lemma CheckAgainstKernel(r: Reader, s: Stat)
    ensures MayRead(r, s) ==> CheckReadableStat(r, s)
    ensures CheckReadableStat(r, s) && !MayRead(r, s) <==> LaterClassOnly(r, s)
  {
  }

  /** The permission digits of a mode: who may read is who has a digit of at least 4. */
  lemma ReadableByDigits(r: Reader, s: Stat, rest: bv32, user: bv32, group: bv32, other: bv32)
    requires user < 8 && group < 8 && other < 8
    requires s.mode == (rest << 9) | (user << 6) | (group << 3) | other
    ensures CheckReadableStat(r, s) <==>
              r.uid == 0 || (r.uid == s.uid && user >= 4) || (r.gid == s.gid && group >= 4) || other >= 4
  {
    assert s.mode & OWNER_READ != 0 <==> user >= 4;
    assert s.mode & GROUP_READ != 0 <==> group >= 4;
    assert s.mode & OTHER_READ != 0 <==> other >= 4;
  }

  predicate Shown(r: Reader, e: Entry) {
    e.kind != Special &&
    if e.sys.Some? then CheckReadableStat(r, e.sys.value)
    else e.stat.Some? && CheckReadableStat(r, e.stat.value)
  }

  function Kept(r: Reader, es: seq<Entry>): seq<Entry> {
    if |es| == 0 then []
    else
      var kept := Kept(r, es[..|es| - 1]);
      if Shown(r, es[|es| - 1]) then kept + [es[|es| - 1]] else kept
  }

  /** The positions increase and are exactly those of the entries that are shown. */
  ghost predicate Selects(r: Reader, es: seq<Entry>, at: seq<nat>) {
    && (forall j :: 0 <= j < |at| ==> at[j] < |es|)
    && (forall j, k :: 0 <= j < k < |at| ==> at[j] < at[k])
    && (forall i :: 0 <= i < |es| ==> (Shown(r, es[i]) <==> i in at))
  }

  /** The entries kept are the shown ones, each once and in their order. */
  lemma {:induction false} KeptExactly(r: Reader, es: seq<Entry>) returns (at: seq<nat>)
    ensures Selects(r, es, at) && |Kept(r, es)| == |at|
    ensures forall j :: 0 <= j < |at| ==> at[j] < |es| && Kept(r, es)[j] == es[at[j]]
  {
    at := [];
    if |es| > 0 {
      var n := |es| - 1;
      at := KeptExactly(r, es[..n]);
      if Shown(r, es[n]) {
        at := at + [n];
      }
    }
  }

  /** What is kept: files and directories that their own stat data, else that of their path, lets be read. */
  lemma {:induction false} KeptMeans(r: Reader, es: seq<Entry>, e: Entry)
    ensures e in Kept(r, es) <==>
              && e in es && e.kind in {Regular, Directory}
              && ((e.sys.Some? && CheckReadableStat(r, e.sys.value))
                  || (e.sys.None? && e.stat.Some? && CheckReadableStat(r, e.stat.value)))
  {
    if |es| > 0 {
      KeptMeans(r, es[..|es| - 1], e);
      assert es == es[..|es| - 1] + [es[|es| - 1]];
    }
  }

  /**
    The filter loop of Filelist: `filtered` is the front of the array that the loop reads, so the
    entries kept overwrite entries that were already looked at.
    */
  method FilterEntries(r: Reader, entries: array<Entry>) returns (n: nat)
    modifies entries
    ensures n <= entries.Length && entries[..n] == Kept(r, old(entries[..]))
  {
    n := 0;
    for i := 0 to entries.Length
      invariant n <= i && entries[..n] == Kept(r, old(entries[..])[..i])
      invariant entries[i..] == old(entries[..])[i..]
    {
      assert old(entries[..])[..i + 1][..i] == old(entries[..])[..i];
      var entry := entries[i];
      assert entry == old(entries[..])[i];
      if entry.kind == Special {
        continue;
      }
      if entry.sys.Some? {
        if CheckReadableStat(r, entry.sys.value) {
          entries[n] := entry;
          n := n + 1;
        }
        continue;
      }
      if entry.stat.Some? {
        if CheckReadableStat(r, entry.stat.value) {
          entries[n] := entry;
          n := n + 1;
        }
      }
    }
    assert old(entries[..])[..entries.Length] == old(entries[..]);
  }

  // ---------------------------------------------------------------- what a listing holds

  datatype Info =
    | Up                                 // ".."
    | Mount(alias: string, perm: bv32)   // a mapping in the virtual root
    | Output(name: string, size: nat)    // of an exec mapping
    | Single(name: string, size: nat)    // the file that the path leads to
    | Found(entry: Entry)

  const READ_ONLY_DIR: bv32 := 0x16D     // 0555
  const READ_WRITE_DIR: bv32 := 0x1ED    // 0755

  function MountPerm(mode: Mode): bv32 {
    match mode
    case ReadOnly => READ_ONLY_DIR
    case ReadWrite => READ_WRITE_DIR
    case _ => 0
  }

  function OutputSize(output: Option<Bytes>): nat {
    if output.None? then 0 else |output.value|
  }

  function Founds(es: seq<Entry>): seq<Info> {
    seq(|es|, i requires 0 <= i < |es| => Found(es[i]))
  }

  method ListDirectory(r: Reader, entries: array<Entry>) returns (infos: seq<Info>)
    modifies entries
    ensures infos == [Up] + Founds(Kept(r, old(entries[..])))
  {
    var n := FilterEntries(r, entries);
    infos := [Up] + Founds(entries[..n]);
  }

  /** Every mapping that is not an exec one is listed once in the virtual root, in some order. */
  predicate ListsMounts(modes: map<string, Mode>, infos: seq<Info>) {
    && (forall i :: 0 <= i < |infos| ==>
          && infos[i].Mount? && infos[i].alias in modes
          && modes[infos[i].alias] != Exec && infos[i].perm == MountPerm(modes[infos[i].alias]))
    && (forall i, j :: 0 <= i < j < |infos| ==> infos[i] != infos[j])
    && (forall a :: a in modes && modes[a] != Exec ==> Mount(a, MountPerm(modes[a])) in infos)
  }

  const OCTAL_555: bv32 := (5 << 6) | (5 << 3) | 5
  const OCTAL_755: bv32 := (7 << 6) | (5 << 3) | 5

  /** What that shows of each mapping: 0555 for a read-only one, 0755 for a read-write one, no exec one. */
  lemma MountsMean(modes: map<string, Mode>, infos: seq<Info>, a: string)
    requires ListsMounts(modes, infos)
    ensures a in modes && modes[a] == ReadOnly ==> Mount(a, OCTAL_555) in infos
    ensures a in modes && modes[a] == ReadWrite ==> Mount(a, OCTAL_755) in infos
    ensures a in modes && modes[a].Other? ==> Mount(a, 0) in infos
    ensures a !in modes || modes[a] == Exec ==> forall p :: Mount(a, p) !in infos
    ensures forall i, j :: 0 <= i < |infos| && 0 <= j < |infos| && i != j ==> infos[i].alias != infos[j].alias
  {
    forall i, j | 0 <= i < j < |infos|
      ensures infos[i].alias != infos[j].alias
    {
      assert infos[i] != infos[j];
    }
  }

  method ListTop(modes: map<string, Mode>) returns (infos: seq<Info>)
    ensures ListsMounts(modes, infos)
  {
    infos := [];
    var todo := modes.Keys;
    while todo != {}
      invariant todo <= modes.Keys
      invariant ListsMounts(map a | a in modes && a !in todo :: modes[a], infos)
    {
      var name :| name in todo;
      todo := todo - {name};
      if modes[name] != Exec {
        infos := infos + [Mount(name, MountPerm(modes[name]))];
      }
    }
    assert (map a | a in modes && a !in todo :: modes[a]) == modes;
  }

  // ---------------------------------------------------------------- pages

  function Min(a: int, b: int): int {
    if a < b then a else b
  }

  /** How many of the remaining entries fit in the buffer. */
  function PageSize(length: nat, off: nat, room: nat): nat {
    if off >= length then 0 else Min(room, length - off)
  }

  /** Fills the buffer from position `off` on, and says whether that was the end. */
  method ListAt<T>(all: seq<T>, p: array<T>, off: nat) returns (n: nat, eof: bool)
    modifies p
    ensures n == PageSize(|all|, off, p.Length) && eof == (off + n >= |all|)
    ensures p[..n] == (if off >= |all| then [] else all[off..off + n]) && p[n..] == old(p[n..])
  {
    n := 0;
    if off >= |all| {
      return 0, true;
    }
    while n < p.Length && off + n < |all|
      invariant n <= p.Length && off + n <= |all|
      invariant p[..n] == all[off..off + n]
      invariant forall k :: n <= k < p.Length ==> p[k] == old(p[k])
    {
      p[n] := all[off + n];
      n := n + 1;
    }
    eof := off + n >= |all|;
  }

  /** What a client gets that asks for page after page into buffers of these sizes until the end is reported. */
  function Paged<T>(all: seq<T>, off: nat, rooms: seq<nat>): (seq<T>, bool)
    requires off <= |all|
    decreases |rooms|
  {
    if |rooms| == 0 then ([], false)
    else
      var n := PageSize(|all|, off, rooms[0]);
      if off + n >= |all| then (all[off..off + n], true)
      else
        var (rest, eof) := Paged(all, off + n, rooms[1..]);
        (all[off..off + n] + rest, eof)
  }

  function Sum(ns: seq<nat>): nat {
    if |ns| == 0 then 0 else ns[0] + Sum(ns[1..])
  }

  /**
    The pages together are the listing from its start, nothing twice and nothing left out, and the
    end is reported exactly if the buffers had room for all of it.
    */
  lemma {:induction false} PagedDelivers<T>(all: seq<T>, off: nat, rooms: seq<nat>)
    requires off <= |all|
    ensures Paged(all, off, rooms).0 == all[off..Min(|all|, off + Sum(rooms))]
    ensures Paged(all, off, rooms).1 <==> |rooms| > 0 && off + Sum(rooms) >= |all|
    decreases |rooms|
  {
    if |rooms| > 0 {
      var n := PageSize(|all|, off, rooms[0]);
      if off + n < |all| {
        PagedDelivers(all, off + n, rooms[1..]);
      }
    }
  }

  lemma {:induction false} SumAtLeast(ns: seq<nat>)
    requires forall i :: 0 <= i < |ns| ==> ns[i] > 0
    ensures Sum(ns) >= |ns|
  {
    if |ns| > 0 {
      SumAtLeast(ns[1..]);
    }
  }

  /** With buffers that are not empty, one page more than there are entries always suffices. */
  lemma PagingEnds(r: Reader, es: seq<Entry>, rooms: seq<nat>)
    requires forall i :: 0 <= i < |rooms| ==> rooms[i] > 0
    requires |rooms| > |Kept(r, es)|
    ensures var all := [Up] + Founds(Kept(r, es)); Paged(all, 0, rooms) == (all, true)
  {
    var all := [Up] + Founds(Kept(r, es));
    PagedDelivers(all, 0, rooms);
    SumAtLeast(rooms);
    assert all[0..|all|] == all;
  }
}
