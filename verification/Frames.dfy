/**
  What requests can do to the host's tree over whole runs: by any sessions, with directories renamed
  under open handles, and with new handles opened by reloads in between.
  */
module Frames {
  import opened Wrappers
  import opened Strings
  import opened ConfigModel
  import opened ConfigSpec
  import opened ConfigTheorems
  import opened Paths
  import opened HostFs
  import opened Handlers

  /** A session keeps the user object it began with: the login, as of one state of the server. */
  datatype Session = Session(login: string, generation: nat)

  /** The mappings of every session there can be. */
  type Tables = map<Session, Table>

  /** All requests on one host, one after another. */
  datatype System = System(host: Host, outputs: map<Session, map<string, Option<Bytes>>>)

  datatype Event =
    | Ask(session: Session, req: Request)
    | Open(root: Root)  // a load opens a mapping's directory

  function OutputOf(s: System, session: Session): map<string, Option<Bytes>> {
    if session in s.outputs then s.outputs[session] else map[]
  }

  predicate AllRootsOk(tables: Tables) {
    forall l :: l in tables ==> RootsOk(tables[l])
  }

  /** os.OpenRoot: the handle is on the directory of its path. */
  function OpenRootAt(h: Host, root: Root): Host {
    if root !in h.roots && IsDir(h.nodes, HostPath(root.path))
    then h.(roots := h.roots[root := HostPath(root.path)])
    else h
  }

  function Next(runs: string -> bool, tables: Tables, s: System, e: Event): System
    requires AllRootsOk(tables) && (e.Ask? ==> e.session in tables)
  {
    match e
    case Open(root) => s.(host := OpenRootAt(s.host, root))
    case Ask(session, req) =>
      var s' := Handle(runs, tables[session], Vfs(s.host, OutputOf(s, session)), req).0;
      System(s'.host, s.outputs[session := s'.output])
  }

  predicate Run(runs: string -> bool, tables: Tables, states: seq<System>, events: seq<Event>) {
    && AllRootsOk(tables) && |states| == |events| + 1
    && forall i :: 0 <= i < |events| ==>
         (events[i].Ask? ==> events[i].session in tables) && states[i + 1] == Next(runs, tables, states[i], events[i])
  }

  // ---------------------------------------------------------------- the writable parts

  ghost predicate WritableAt(tables: Tables, p: Path) {
    exists l, a :: l in tables && a in tables[l] && Writable(tables[l][a]) && HostPath(tables[l][a].path) == p
  }

  /** The path is below the host path of a writable mapping. */
  ghost predicate Below(tables: Tables, p: Path) {
    exists q: Path :: WritableAt(tables, q) && q < p
  }

  ghost predicate Within(tables: Tables, p: Path) {
    WritableAt(tables, p) || Below(tables, p)
  }

  ghost predicate SameOutside(tables: Tables, h: Host, h': Host) {
    forall p :: !Below(tables, p) ==> SameAt(h, h', p)
  }

  predicate WritableRoot(tables: Tables, l: Session, a: string) {
    l in tables && a in tables[l] && Writable(tables[l][a]) && tables[l][a].root != null
  }

  /** Writable handles and files open for writing have not left the writable parts of the tree. */
  ghost predicate Contained(tables: Tables, h: Host) {
    && HostInv(h)
    && (forall l, a :: WritableRoot(tables, l, a) && tables[l][a].root in h.roots ==>
          Within(tables, h.roots[tables[l][a].root]))
    && (forall fd :: fd in h.files ==> Below(tables, h.files[fd]))
  }

  /** No handle is open, and no file. */
  predicate Fresh(h: Host) {
    Tree(h.nodes) && h.roots == map[] && h.files == map[]
  }

  /** What one step may do. */
  ghost predicate Confines(tables: Tables, h: Host, h': Host) {
    Contained(tables, h') && SameOutside(tables, h, h')
  }

  /** A mapping ".." that can be renamed in. */
  predicate HasClimber(m: Table) {
    UP in m && m[UP].mode == ReadWrite
  }

  /** The request renames in a read-write mapping ".." by a path that goes up from it. */
  predicate Climbs(m: Table, req: Request) {
    && req.Command? && req.verb == Move && HasClimber(m)
    && var r, t := Resolve(m, req.path), Resolve(m, req.target);
       && r.At? && t.At? && r.alias == t.alias == UP && !(Confined(r.rel) && Confined(t.rel))
  }

  /** There is no outside, because the whole tree is writable, or no way to it. */
  ghost predicate NoWayOut(tables: Tables) {
    WritableAt(tables, []) || forall l :: l in tables ==> !HasClimber(tables[l])
  }

  /** Rooted paths never climb. */
  lemma RootedNeverClimbs(m: Table, req: Request)
    requires req.Command? && (Rooted(req.path) || Rooted(req.target))
    ensures !Climbs(m, req)
  {
    RootedAlias(m, req.path);
    RootedAlias(m, req.target);
  }

  lemma FreshIsContained(tables: Tables, h: Host)
    requires Fresh(h)
    ensures Contained(tables, h)
  {
  }

  // ---------------------------------------------------------------- one step

  lemma DeeperIsBelow(tables: Tables, p: Path, q: Path)
    requires (Within(tables, p) && p < q) || (Below(tables, p) && p <= q)
    ensures Below(tables, q)
  {
    if WritableAt(tables, p) && p < q {
    } else {
      var w: Path :| WritableAt(tables, w) && w < p;
    }
  }

  lemma MkdirConfined(tables: Tables, h: Host, p: Path)
    requires Contained(tables, h) && (p in h.nodes || Below(tables, p))
    ensures Confines(tables, h, Mkdir(h, p).0)
  {
    MkdirKeeps(h, p);
  }

  lemma CreateConfined(tables: Tables, h: Host, p: Path, fd: nat)
    requires Contained(tables, h) && (IsDir(h.nodes, p) || Below(tables, p))
    ensures Confines(tables, h, Create(h, p, fd).0)
  {
    CreateKeeps(h, p, fd);
  }

  lemma StoreConfined(tables: Tables, h: Host, fd: nat, c: Chunk)
    requires Contained(tables, h)
    ensures Confines(tables, h, Store(h, fd, c))
  {
    StoreKeeps(h, fd, c);
  }

  lemma RemoveConfined(tables: Tables, h: Host, p: Path)
    requires Contained(tables, h) && Below(tables, p)
    ensures Confines(tables, h, Remove(h, p).0)
  {
    RemoveKeeps(h, p);
  }

  lemma RelocateWithin(tables: Tables, src: Path, dst: Path, p: Path)
    requires Below(tables, src) && Below(tables, dst)
    ensures Within(tables, p) ==> Within(tables, Relocate(p, src, dst))
    ensures Below(tables, p) ==> Below(tables, Relocate(p, src, dst))
  {
    if src <= p {
      DeeperIsBelow(tables, dst, dst + p[|src|..]);
    }
  }

  lemma RenameConfined(tables: Tables, h: Host, src: Path, dst: Path)
    requires Contained(tables, h)
    requires CanRename(h.nodes, src, dst) && src != dst ==> Below(tables, src) && Below(tables, dst)
    ensures Confines(tables, h, Rename(h, src, dst).0)
  {
    RenameKeeps(h, src, dst);
    if CanRename(h.nodes, src, dst) && src != dst {
      var h' := Rename(h, src, dst).0;
      RenameSame(tables, h, src, dst);
      forall l, a | WritableRoot(tables, l, a) && tables[l][a].root in h'.roots
        ensures Within(tables, h'.roots[tables[l][a].root])
      {
        RelocateWithin(tables, src, dst, h.roots[tables[l][a].root]);
      }
      forall fd | fd in h'.files
        ensures Below(tables, h'.files[fd])
      {
        RelocateWithin(tables, src, dst, h.files[fd]);
      }
    }
  }

  lemma RenameSame(tables: Tables, h: Host, src: Path, dst: Path)
    requires HostInv(h) && CanRename(h.nodes, src, dst) && src != dst && Below(tables, src) && Below(tables, dst)
    ensures SameOutside(tables, h, Rename(h, src, dst).0)
  {
    MovedNodes(h.nodes, src, dst);
    forall p | !Below(tables, p)
      ensures SameAt(h, Rename(h, src, dst).0, p)
    {
      if src <= p {
        DeeperIsBelow(tables, src, p);
      }
      if dst <= p {
        DeeperIsBelow(tables, dst, p);
      }
    }
  }

  lemma InsideIsWithin(tables: Tables, h: Host, l: Session, a: string, rel: string)
    requires Contained(tables, h) && WritableRoot(tables, l, a) && Inside(h, tables[l][a].root, rel).Some?
    ensures var p := Inside(h, tables[l][a].root, rel).value;
            if rel == DOT then IsDir(h.nodes, p) else Below(tables, p)
  {
    var at := h.roots[tables[l][a].root];
    if rel == DOT {
      assert at + [] == at;
    } else {
      assert at < at + Split(rel, SEP);
      DeeperIsBelow(tables, at, at + Split(rel, SEP));
    }
  }

  /** Opening for writing, whatever the host refuses of it. */
  lemma OpenConfined(tables: Tables, h: Host, l: Session, a: string, rel: string, fd: nat, fault: Fault)
    requires Contained(tables, h) && WritableRoot(tables, l, a)
    ensures Confines(tables, h, OpenForWrite(h, tables[l][a].root, rel, fd, fault).0)
  {
    var root := tables[l][a].root;
    var dir, p := Inside(h, root, DirName(rel)), Inside(h, root, rel);
    if dir.Some? && fault != First {
      InsideIsWithin(tables, h, l, a, DirName(rel));
      MkdirConfined(tables, h, dir.value);
      if p.Some? {
        MakeFileConfined(tables, h, l, a, rel, fd, dir.value);
      }
    }
  }

  lemma MakeFileConfined(tables: Tables, h: Host, l: Session, a: string, rel: string, fd: nat, dir: Path)
    requires Contained(tables, h) && WritableRoot(tables, l, a) && Inside(h, tables[l][a].root, rel).Some?
    requires Confines(tables, h, Mkdir(h, dir).0)
    ensures Confines(tables, h, Create(Mkdir(h, dir).0, Inside(h, tables[l][a].root, rel).value, fd).0)
  {
    var h1, p := Mkdir(h, dir).0, Inside(h, tables[l][a].root, rel);
    assert Inside(h1, tables[l][a].root, rel) == p;
    CreateInside(tables, h1, l, a, rel, fd);
    BothSame(tables, h, h1, Create(h1, p.value, fd).0);
  }

  lemma CreateInside(tables: Tables, h: Host, l: Session, a: string, rel: string, fd: nat)
    requires Contained(tables, h) && WritableRoot(tables, l, a) && Inside(h, tables[l][a].root, rel).Some?
    ensures Confines(tables, h, Create(h, Inside(h, tables[l][a].root, rel).value, fd).0)
  {
    InsideIsWithin(tables, h, l, a, rel);
    CreateConfined(tables, h, Inside(h, tables[l][a].root, rel).value, fd);
  }

  lemma BothSame(tables: Tables, h: Host, h1: Host, h2: Host)
    requires SameOutside(tables, h, h1) && SameOutside(tables, h1, h2)
    ensures SameOutside(tables, h, h2)
  {
    forall p | !Below(tables, p)
      ensures SameAt(h, h2, p)
    {
      assert SameAt(h, h1, p) && SameAt(h1, h2, p);
    }
  }

  /** The directory itself is neither moved nor replaced: it would be moved into itself or onto a directory. */
  lemma MoveConfined(tables: Tables, h: Host, l: Session, a: string, rel: string, target: string, f: Fault)
    requires AllRootsOk(tables) && Contained(tables, h) && WritableRoot(tables, l, a)
    requires Confined(rel) && ConfinedResolution(tables[l], Resolve(tables[l], target))
    ensures Confines(tables, h, MoveIn(h, tables[l], tables[l][a], rel, target, f).0)
  {
    var m := tables[l];
    var to := Resolve(m, target);
    if to.At? && m[to.alias].root == m[a].root {
      var base := HostPath(m[a].path);
      JoinConfined(m[a].path, rel);
      JoinConfined(m[a].path, to.rel);
      var src, dst := base + RelElements(rel), base + RelElements(to.rel);
      assert WritableAt(tables, base);
      if CanRename(h.nodes, src, dst) && src != dst {
        NeitherIsBase(h.nodes, base, RelElements(rel), RelElements(to.rel));
      }
      RenameConfined(tables, h, src, dst);
    }
  }

  /** A directory is not renamed into itself, and nothing is renamed onto it. */
  lemma NeitherIsBase(nodes: map<Path, Node>, base: Path, a: Path, b: Path)
    requires Tree(nodes) && CanRename(nodes, base + a, base + b) && a != b
    ensures a != [] && b != []
  {
    assert base + [] == base;
    if b == [] {
      AncestorsAreDirs(nodes, base, base + a);
    }
  }

  lemma CommandConfined(tables: Tables, l: Session, h: Host, a: string, rel: string)
    requires Contained(tables, h) && WritableRoot(tables, l, a)
    ensures Confines(tables, h, MkdirIn(h, tables[l][a].root, rel).0)
    ensures Confines(tables, h, RemoveIn(h, tables[l][a].root, rel).0)
  {
    var p := Inside(h, tables[l][a].root, rel);
    if p.Some? {
      InsideIsWithin(tables, h, l, a, rel);
      MkdirConfined(tables, h, p.value);
      if rel != DOT {
        RemoveConfined(tables, h, p.value);
      }
    }
  }

  /** A rename that gets as far as the host and does not climb has two confined paths. */
  lemma MovesConfined(m: Table, req: Request)
    requires RootsOk(m) && req.Command? && req.verb == Move && !Climbs(m, req)
    requires var r, t := Resolve(m, req.path), Resolve(m, req.target);
             r.At? && t.At? && m[r.alias].mode == ReadWrite && m[t.alias].root == m[r.alias].root
    ensures Confined(Resolve(m, req.path).rel) && Confined(Resolve(m, req.target).rel)
  {
    ResolveConfined(m, req.path);
    ResolveConfined(m, req.target);
  }

  lemma HandleConfined(runs: string -> bool, tables: Tables, l: Session, s: Vfs, req: Request)
    requires AllRootsOk(tables) && l in tables && Contained(tables, s.host) && !Climbs(tables[l], req)
    ensures Confines(tables, s.host, Handle(runs, tables[l], s, req).0.host)
  {
    var m, h := tables[l], s.host;
    if req.Send? {
      StoreConfined(tables, h, req.fd, req.chunk);
    } else {
      var r := Resolve(m, req.path);
      if r.At? && !req.Read? && Writable(m[r.alias]) {
        assert RootFits(m[r.alias]) && WritableRoot(tables, l, r.alias);
        if req.Write? {
          OpenConfined(tables, h, l, r.alias, r.rel, req.fd, req.fault);
        } else if m[r.alias].mode == ReadWrite {
          CommandFrames(runs, tables, l, s, req, r.alias, r.rel);
        }
      }
    }
  }

  lemma CommandFrames(runs: string -> bool, tables: Tables, l: Session, s: Vfs, req: Request, a: string, rel: string)
    requires AllRootsOk(tables) && Contained(tables, s.host) && WritableRoot(tables, l, a) && !Climbs(tables[l], req)
    requires req.Command? && Resolve(tables[l], req.path) == At(a, rel) && tables[l][a].mode == ReadWrite
    ensures Confines(tables, s.host, Handle(runs, tables[l], s, req).0.host)
  {
    CommandIs(runs, tables[l], s, req.verb, req.path, req.target, req.fault);
    CommandInConfined(tables, l, s.host, req, a, rel);
  }

  lemma CommandInConfined(tables: Tables, l: Session, h: Host, req: Request, a: string, rel: string)
    requires AllRootsOk(tables) && Contained(tables, h) && WritableRoot(tables, l, a) && !Climbs(tables[l], req)
    requires req.Command? && Resolve(tables[l], req.path) == At(a, rel) && tables[l][a].mode == ReadWrite
    ensures Confines(tables, h, CommandIn(h, tables[l], tables[l][a], rel, req.verb, req.target, req.fault).0)
  {
    if req.verb == Move {
      MoveInConfined(tables, l, h, req, a, rel);
    } else {
      CommandConfined(tables, l, h, a, rel);
      CommandInTree(h, tables[l], tables[l][a], rel, req.verb, req.target, req.fault);
    }
  }

  lemma CommandInTree(h: Host, m: Table, e: MapEntry, rel: string, verb: Verb, target: string, fault: Fault)
    requires RootsOk(m) && e.root != null && verb != Move
    ensures CommandIn(h, m, e, rel, verb, target, fault).0 in {h, MkdirIn(h, e.root, rel).0, RemoveIn(h, e.root, rel).0}
  {
  }

  lemma MoveInConfined(tables: Tables, l: Session, h: Host, req: Request, a: string, rel: string)
    requires AllRootsOk(tables) && Contained(tables, h) && WritableRoot(tables, l, a) && !Climbs(tables[l], req)
    requires req.Command? && req.verb == Move && Resolve(tables[l], req.path) == At(a, rel)
    requires tables[l][a].mode == ReadWrite
    ensures Confines(tables, h, MoveIn(h, tables[l], tables[l][a], rel, req.target, req.fault).0)
  {
    var m, t := tables[l], Resolve(tables[l], req.target);
    if t.At? && m[t.alias].root == m[a].root {
      MovesConfined(m, req);
      MoveConfined(tables, h, l, a, rel, req.target, req.fault);
    }
  }

  // ---------------------------------------------------------------- the tree is kept in any case

  lemma HandleKeepsHost(runs: string -> bool, m: Table, s: Vfs, req: Request)
    requires RootsOk(m) && HostInv(s.host)
    ensures HostInv(Handle(runs, m, s, req).0.host)
  {
    match req {
      case Send(fd, chunk) =>
        StoreKeeps(s.host, fd, chunk);
      case Read(_, _) =>
      case Write(path, ran, fd, fault) =>
        var r := Resolve(m, path);
        if r.At? && Writable(m[r.alias]) {
          WriteIs(runs, m, s, path, ran, fd, fault);
          OpenForWriteKeeps(s.host, m[r.alias].root, r.rel, fd, fault);
        }
      case Command(verb, path, target, fault) =>
        var r := Resolve(m, path);
        if r.At? {
          CommandIs(runs, m, s, verb, path, target, fault);
          CommandKeepsHost(s.host, m, r.alias, r.rel, verb, target, fault);
        }
    }
  }

  lemma CommandKeepsHost(h: Host, m: Table, a: string, rel: string, verb: Verb, target: string, fault: Fault)
    requires RootsOk(m) && HostInv(h) && a in m
    ensures HostInv(CommandIn(h, m, m[a], rel, verb, target, fault).0)
  {
    if m[a].mode == ReadWrite {
      assert RootFits(m[a]);
      if verb == Move {
        MoveInKeeps(h, m, m[a], rel, target, fault);
      } else {
        MakeOrRemoveKeeps(h, m[a].root, rel);
        CommandInTree(h, m, m[a], rel, verb, target, fault);
      }
    }
  }

  lemma MoveInKeeps(h: Host, m: Table, e: MapEntry, rel: string, target: string, fault: Fault)
    requires RootsOk(m) && HostInv(h) && e.root != null
    ensures HostInv(MoveIn(h, m, e, rel, target, fault).0)
  {
    var t := Resolve(m, target);
    if t.At? && m[t.alias].root == e.root {
      RenameKeeps(h, JoinPath(e.root.path, rel), JoinPath(m[t.alias].root.path, t.rel));
    }
  }

  lemma MakeOrRemoveKeeps(h: Host, root: Root, rel: string)
    requires HostInv(h)
    ensures HostInv(MkdirIn(h, root, rel).0) && HostInv(RemoveIn(h, root, rel).0)
  {
    var p := Inside(h, root, rel);
    if p.Some? {
      MkdirKeeps(h, p.value);
      RemoveKeeps(h, p.value);
    }
  }

  /** With a writable mapping at the root there is nothing outside but the root itself. */
  lemma AllIsInside(tables: Tables, h: Host, h': Host)
    requires WritableAt(tables, []) && HostInv(h) && HostInv(h')
    ensures Confines(tables, h, h')
  {
    forall p: Path | p != []
      ensures Below(tables, p)
    {
      assert [] < p;
    }
    assert SameAt(h, h', []);
  }

  /** One step of a run, if it does not climb or there is no outside. */
  lemma StepConfined(runs: string -> bool, tables: Tables, s: System, e: Event)
    requires AllRootsOk(tables) && Contained(tables, s.host) && (e.Ask? ==> e.session in tables)
    requires WritableAt(tables, []) || (e.Ask? ==> !Climbs(tables[e.session], e.req))
    ensures Confines(tables, s.host, Next(runs, tables, s, e).host)
  {
    match e {
      case Open(root) =>
        OpenRootConfined(tables, s.host, root);
      case Ask(session, req) =>
        var vfs := Vfs(s.host, OutputOf(s, session));
        if WritableAt(tables, []) {
          HandleKeepsHost(runs, tables[session], vfs, req);
          AllIsInside(tables, s.host, Handle(runs, tables[session], vfs, req).0.host);
        } else {
          HandleConfined(runs, tables, session, vfs, req);
        }
    }
  }

  /** A handle that is opened now is on its own path, wherever the older ones have gone. */
  lemma OpenRootConfined(tables: Tables, h: Host, root: Root)
    requires AllRootsOk(tables) && Contained(tables, h)
    ensures Confines(tables, h, OpenRootAt(h, root))
  {
    var h' := OpenRootAt(h, root);
    forall l, a | WritableRoot(tables, l, a) && tables[l][a].root in h'.roots
      ensures Within(tables, h'.roots[tables[l][a].root])
    {
      assert RootFits(tables[l][a]);
      assert WritableAt(tables, HostPath(tables[l][a].path));
    }
  }

  // ---------------------------------------------------------------- whole runs

  /**
    Over any run of requests by any sessions, with loads opening new handles in between, every node
    that is not below the host path of a writable mapping stays as it was, and no writable handle or
    open file gets out of the writable parts: if there is no way out for anyone, or nobody takes it.
    */
  lemma {:induction false} RunConfined(runs: string -> bool, tables: Tables,
                                       states: seq<System>, events: seq<Event>, n: nat)
    requires Run(runs, tables, states, events) && n <= |events|
    requires Contained(tables, states[0].host)
    requires NoWayOut(tables) || forall i :: 0 <= i < |events| && events[i].Ask? ==>
               !Climbs(tables[events[i].session], events[i].req)
    ensures Contained(tables, states[n].host) && SameOutside(tables, states[0].host, states[n].host)
  {
    if n > 0 {
      RunConfined(runs, tables, states, events, n - 1);
      var s, e := states[n - 1], events[n - 1];
      assert states[n - 1 + 1] == Next(runs, tables, s, e);
      StepConfined(runs, tables, s, e);
      BothSame(tables, states[0].host, s.host, states[n].host);
    }
  }

  /**
    The frame holds for every request in every contained state exactly if there is no way out: the
    whole tree is writable, or nobody has a read-write mapping "..".
    */
  lemma FrameExactly(runs: string -> bool, tables: Tables)
    requires AllRootsOk(tables)
    ensures (forall h: Host, l, out, req | Contained(tables, h) && l in tables ::
               SameOutside(tables, h, Handle(runs, tables[l], Vfs(h, out), req).0.host))
       <==> NoWayOut(tables)
  {
    if NoWayOut(tables) {
      forall h: Host, l, out, req | Contained(tables, h) && l in tables
        ensures SameOutside(tables, h, Handle(runs, tables[l], Vfs(h, out), req).0.host)
      {
        StepConfined(runs, tables, System(h, map[l := out]), Ask(l, req));
      }
    } else {
      var l :| l in tables && HasClimber(tables[l]);
      var h, req := ClimbingRename(runs, tables, l);
      assert !SameOutside(tables, h, Handle(runs, tables[l], Vfs(h, map[]), req).0.host);
    }
  }

  // ---------------------------------------------------------------- the way out

  function Ups(n: nat): seq<string> {
    if n == 0 then [] else [UP] + Ups(n - 1)
  }

  /** From a directory, as many ".." as it is deep lead to the root. */
  lemma {:induction false} UpsLeadUp(base: Path, n: nat, e: string)
    requires |base| == n && Normal(true, base) && Plain(e)
    ensures PushAll(true, base, Ups(n) + [e]) == [e]
    decreases n
  {
    var es := Ups(n) + [e];
    if n == 0 {
      assert es == [e] && es[1..] == [];
      assert PushAll(true, [e], []) == [e];
    } else {
      assert es[0] == UP && es[1..] == Ups(n - 1) + [e];
      assert Plain(Last(base));
      UpsLeadUp(base[..n - 1], n - 1, e);
    }
  }

  lemma {:induction false} UpsNormal(n: nat, e: string)
    requires Plain(e)
    ensures |Ups(n)| == n && (forall i :: 0 <= i < n ==> Ups(n)[i] == UP)
    ensures Normal(false, Ups(n) + [e])
  {
    if n > 0 {
      UpsNormal(n - 1, e);
      assert forall i :: 0 < i < n ==> Ups(n)[i] == Ups(n - 1)[i - 1];
    }
  }

  /** The path that climbs from a mapping ".." to a name in the root. */
  function ClimbingPath(depth: nat, name: string): string {
    Join(Ups(depth + 1) + [name], SEP)
  }

  lemma ClimbingPathResolves(m: Table, name: string, base: Path)
    requires HasClimber(m) && Plain(name) && '~' !in name && base == HostPath(m[UP].path)
    ensures var r := Resolve(m, ClimbingPath(|base|, name));
            r.At? && r.alias == UP && JoinPath(m[UP].path, r.rel) == [name]
  {
    var es, rest := Ups(|base| + 1) + [name], Ups(|base|) + [name];
    var path := ClimbingPath(|base|, name);
    UpsNormal(|base| + 1, name);
    UpsNormal(|base|, name);
    assert path == Written(false, es);
    WrittenElements(false, es);
    UpsNoTilde(es);
    ResolveElements(m, path);
    assert es[1..] == rest;
    SplitJoin(rest, SEP);
    PushAllNormal(true, [], Split(m[UP].path, SEP));
    UpsLeadUp(base, |base|, name);
  }

  lemma UpsNoTilde(es: seq<string>)
    requires forall e :: e in es ==> '~' !in e
    ensures '~' !in Join(es, SEP)
  {
    JoinChars(es, SEP, '~');
  }

  const TWO_NODES: map<Path, Node> := map[[] := Dir, ["b"] := File([])]

  /** From every read-write mapping "..", unless the whole tree is writable, a rename gets at a file outside. */
  lemma ClimbingRename(runs: string -> bool, tables: Tables, l: Session) returns (h: Host, req: Request)
    requires AllRootsOk(tables) && l in tables && HasClimber(tables[l]) && !WritableAt(tables, [])
    ensures Contained(tables, h) && Fresh(h) && Climbs(tables[l], req)
    ensures !SameOutside(tables, h, Handle(runs, tables[l], Vfs(h, map[]), req).0.host)
  {
    var m := tables[l];
    var depth := |HostPath(m[UP].path)|;
    h := Host(TWO_NODES, map[], map[]);
    req := Command(Move, ClimbingPath(depth, "b"), ClimbingPath(depth, "c"), Fine);
    ClimbingPathResolves(m, "b", HostPath(m[UP].path));
    ClimbingPathResolves(m, "c", HostPath(m[UP].path));
    assert RootFits(m[UP]);
    MoveReaches(runs, m, Vfs(h, map[]), req.path, req.target, ["b"], ["c"]);
    MovedEnds(h.nodes, ["b"], ["c"]);
    assert !Below(tables, ["b"]);
    assert !SameAt(h, Handle(runs, m, Vfs(h, map[]), req).0.host, ["b"]);
    assert Climbs(m, req) by {
      if !Climbs(m, req) {
        HandleConfined(runs, tables, l, Vfs(h, map[]), req);
      }
    }
  }

  lemma MoveReaches(runs: string -> bool, m: Table, s: Vfs, path: string, target: string, src: Path, dst: Path)
    requires RootsOk(m) && HasClimber(m)
    requires var r, t := Resolve(m, path), Resolve(m, target);
             && r.At? && t.At? && r.alias == t.alias == UP
             && JoinPath(m[UP].path, r.rel) == src && JoinPath(m[UP].path, t.rel) == dst
    ensures Handle(runs, m, s, Command(Move, path, target, Fine)).0.host == Rename(s.host, src, dst).0
  {
    MoveIs(runs, m, s, path, target, Fine);
  }

  // ---------------------------------------------------------------- sessions of a server

  /** The mappings of every user in every state of a run of the server. */
  function ServedTables(states: seq<ServerState>): Tables {
    map g, l | 0 <= g < |states| && l in states[g].Users() :: Session(l, g) := states[g].Users()[l].mapping
  }

  /** They are as the requests need them. */
  lemma ServedTablesOk(env: Env, first: ConfigDoc, states: seq<ServerState>, ops: seq<Op>)
    requires env.Lawful() && ConfigSpec.Run(env, first, states, ops)
    ensures AllRootsOk(ServedTables(states))
  {
    forall l | l in ServedTables(states)
      ensures RootsOk(ServedTables(states)[l])
    {
      RunKeepsInv(env, first, states, ops, l.generation);
      assert UserInv(env, l.login, states[l.generation].config.value.users[l.login]);
    }
  }

  /** So in every session of every run of the server, a rename that succeeds stays under one read-write alias. */
  lemma RenameInServerRun(env: Env, first: ConfigDoc, states: seq<ServerState>, ops: seq<Op>, l: Session,
                          runs: string -> bool, s: Vfs, path: string, target: string, f: Fault)
    requires env.Lawful() && ConfigSpec.Run(env, first, states, ops) && l in ServedTables(states)
    ensures var m := ServedTables(states)[l];
            && RootsOk(m)
            && (Handle(runs, m, s, Command(Move, path, target, f)).1 == Completed ==>
                  var r, t := Resolve(m, path), Resolve(m, target);
                  r.At? && t.At? && r.alias == t.alias && m[r.alias].mode == ReadWrite)
  {
    ServedTablesOk(env, first, states, ops);
    RenameSameAlias(runs, ServedTables(states)[l], s, path, target, f);
  }

  /**
    The files of a running server: whatever its sessions ask for, those that began before a reload
    included, nothing outside the writable mappings it ever served is touched, if nobody climbs.
    */
  lemma ServerFilesFramed(env: Env, first: ConfigDoc, states: seq<ServerState>, ops: seq<Op>,
                          runs: string -> bool, systems: seq<System>, events: seq<Event>, n: nat)
    requires env.Lawful() && ConfigSpec.Run(env, first, states, ops)
    requires Run(runs, ServedTables(states), systems, events) && Fresh(systems[0].host) && n <= |events|
    requires var tables := ServedTables(states);
             NoWayOut(tables) || forall i :: 0 <= i < |events| && events[i].Ask? ==>
               !Climbs(tables[events[i].session], events[i].req)
    ensures SameOutside(ServedTables(states), systems[0].host, systems[n].host)
  {
    FreshIsContained(ServedTables(states), systems[0].host);
    RunConfined(runs, ServedTables(states), systems, events, n);
  }
}
