/** The file requests of internal/handlers.go on a user's mappings, as functions on values. */
module Handlers {
  import opened Wrappers
  import opened Strings
  import opened ConfigModel
  import opened ConfigSpec
  import opened Paths
  import opened HostFs

  type Table = map<string, MapEntry>

  datatype Verb = RemoveFile | RemoveDir | MakeDir | Move | OtherVerb

  /** Which call on the host fails for a reason that the tree does not show: permissions, a full disk, a long name. */
  datatype Fault = Fine | First | Second

  datatype Request =
    | Read(path: string, fault: Fault)
    | Write(path: string, ran: Option<Bytes>, fd: nat, fault: Fault)  // with what an exec mapping's program prints
    | Command(verb: Verb, path: string, target: string, fault: Fault)
    | Send(fd: nat, chunk: Chunk)                                     // data for a file open for writing

  datatype Reply =
    | NotExist | Permission | Error
    | Completed
    | Discarding            // a writer that drops what it gets
    | Writing(fd: nat)
    | Reading(node: Node)

  /** What one user's requests work on; an alias's output is what its program printed last. */
  datatype Vfs = Vfs(host: Host, output: map<string, Option<Bytes>>)

  // ---------------------------------------------------------------- paths on the host

  function RelElements(rel: string): Path {
    if rel == DOT then [] else Split(rel, SEP)
  }

  function DirName(rel: string): string {
    var es := Split(rel, SEP);
    if |es| == 1 then DOT else Join(es[..|es| - 1], SEP)
  }

  /** The path that a handle's method works on: nothing if it leaves the directory or the directory is gone. */
  function Inside(h: Host, root: Root, rel: string): Option<Path> {
    if root in h.roots && UP !in RelElements(rel) then Some(h.roots[root] + RelElements(rel)) else None
  }

  function HostPath(path: string): Path {
    PushAll(true, [], Split(path, SEP))
  }

  /** filepath.Join of the name a handle was opened with and a path inside it. */
  function JoinPath(name: string, rel: string): Path {
    PushAll(true, HostPath(name), Split(rel, SEP))
  }

  lemma JoinConfined(name: string, rel: string)
    requires Confined(rel)
    ensures JoinPath(name, rel) == HostPath(name) + RelElements(rel)
  {
    if rel == DOT {
      SplitPiece(DOT, "", SEP);
      assert PushAll(true, HostPath(name), [DOT]) == Push(true, HostPath(name), DOT);
    } else {
      PushAllNormal(true, [], Split(name, SEP));
      PushAllKeeps(true, HostPath(name), Split(rel, SEP));
    }
  }

  // ---------------------------------------------------------------- requests

  function OpenForRead(h: Host, root: Root, rel: string): Reply {
    var p := Inside(h, root, rel);
    if p.Some? && p.value in h.nodes then Reading(h.nodes[p.value]) else Error
  }

  /** Makes the directory of the file if it is missing, then the file. */
  function OpenForWrite(h: Host, root: Root, rel: string, fd: nat, fault: Fault): (Host, Reply) {
    var dir := Inside(h, root, DirName(rel));
    if dir.None? || fault == First then (h, Error) else MakeFile(h, dir.value, Inside(h, root, rel), fd, fault)
  }

  function MakeFile(h: Host, dir: Path, p: Option<Path>, fd: nat, fault: Fault): (Host, Reply) {
    var (h1, made) := Mkdir(h, dir);
    if made == Failed || p.None? || fault == Second then (h1, Error)
    else
      var (h2, created) := Create(h1, p.value, fd);
      if created == Failed then (h2, Error) else (h2, Writing(fd))
  }

  function RemoveIn(h: Host, root: Root, rel: string): (Host, Reply) {
    var p := Inside(h, root, rel);
    if p.None? || rel == DOT then (h, Error)
    else
      var (h', st) := Remove(h, p.value);
      (h', if st == Failed then Error else Completed)
  }

  function MkdirIn(h: Host, root: Root, rel: string): (Host, Reply) {
    var p := Inside(h, root, rel);
    if p.None? then (h, Error)
    else
      var (h', st) := Mkdir(h, p.value);
      (h', if st == Failed then Error else Completed)
  }

  /** Works on the names, not on the handles. */
  function MoveIn(h: Host, m: Table, from: MapEntry, rel: string, target: string, fault: Fault): (Host, Reply)
    requires from.root != null && RootsOk(m)
  {
    var to := Resolve(m, target);
    if !to.At? then (h, NotExist)
    else if m[to.alias].root != from.root || fault == First then (h, Error)
    else
      var (h', st) := Rename(h, JoinPath(from.root.path, rel), JoinPath(m[to.alias].root.path, to.rel));
      (h', if st == Failed then Error else Completed)
  }

  /** A filesystem command: only with a read-write mapping, except that an unknown one does nothing. */
  function CommandIn(h: Host, m: Table, e: MapEntry, rel: string, verb: Verb, target: string, fault: Fault):
    (Host, Reply)
    requires RootsOk(m) && (e.mode == ReadWrite ==> e.root != null)
  {
    if verb == OtherVerb then (h, Completed)
    else if e.mode != ReadWrite then (h, Permission)
    else if verb == Move then MoveIn(h, m, e, rel, target, fault)
    else if fault == First then (h, Error)
    else if verb == MakeDir then MkdirIn(h, e.root, rel)
    else RemoveIn(h, e.root, rel)
  }

  function StoredOutput(s: Vfs, alias: string): Reply {
    if alias in s.output && s.output[alias].Some? then Reading(File(s.output[alias].value)) else NotExist
  }

  /** An exec mapping stores what its program prints, if its path names one. */
  function Execute(runs: string -> bool, s: Vfs, alias: string, e: MapEntry, ran: Option<Bytes>): (Vfs, Reply) {
    if e.path != "" && runs(e.path) then (s.(output := s.output[alias := ran]), Discarding) else (s, NotExist)
  }

  function Handle(runs: string -> bool, m: Table, s: Vfs, req: Request): (Vfs, Reply)
    requires RootsOk(m)
  {
    if req.Send? then (s.(host := Store(s.host, req.fd, req.chunk)), Completed)
    else
      var r := Resolve(m, req.path);
      if !r.At? then (s, NotExist)
      else
        var e := m[r.alias];
        match req
        case Read(_, fault) =>
          if e.mode == Exec then (s, StoredOutput(s, r.alias))
          else (s, if fault == First then Error else OpenForRead(s.host, e.root, r.rel))
        case Write(_, ran, fd, fault) =>
          if e.mode == Exec then Execute(runs, s, r.alias, e, ran)
          else if e.mode == ReadOnly then (s, Permission)
          else
            var (h, reply) := OpenForWrite(s.host, e.root, r.rel, fd, fault);
            (s.(host := h), reply)
        case Command(verb, _, target, fault) =>
          var (h, reply) := CommandIn(s.host, m, e, r.rel, verb, target, fault);
          (s.(host := h), reply)
  }

  // ---------------------------------------------------------------- one request

  lemma WriteIs(runs: string -> bool, m: Table, s: Vfs, path: string, ran: Option<Bytes>, fd: nat, f: Fault)
    requires RootsOk(m) && Resolve(m, path).At? && Writable(m[Resolve(m, path).alias])
    ensures var r := Resolve(m, path); var (h, reply) := OpenForWrite(s.host, m[r.alias].root, r.rel, fd, f);
            Handle(runs, m, s, Write(path, ran, fd, f)) == (s.(host := h), reply)
  {
  }

  lemma CommandIs(runs: string -> bool, m: Table, s: Vfs, verb: Verb, path: string, target: string, f: Fault)
    requires RootsOk(m) && Resolve(m, path).At?
    ensures var r := Resolve(m, path); var (h, reply) := CommandIn(s.host, m, m[r.alias], r.rel, verb, target, f);
            Handle(runs, m, s, Command(verb, path, target, f)) == (s.(host := h), reply)
  {
  }

  lemma MoveIs(runs: string -> bool, m: Table, s: Vfs, path: string, target: string, f: Fault)
    requires RootsOk(m) && Resolve(m, path).At? && m[Resolve(m, path).alias].mode == ReadWrite
    ensures var r := Resolve(m, path); var (h, reply) := MoveIn(s.host, m, m[r.alias], r.rel, target, f);
            Handle(runs, m, s, Command(Move, path, target, f)) == (s.(host := h), reply)
  {
  }

  /**
    A rename that succeeds stays under one alias, which is read-write: no two aliases of a user share
    a handle, and only exec mappings have none.
    */
  lemma RenameSameAlias(runs: string -> bool, m: Table, s: Vfs, path: string, target: string, f: Fault)
    requires RootsOk(m)
    ensures var (s', reply) := Handle(runs, m, s, Command(Move, path, target, f));
            reply == Completed || s' != s ==>
              var r, t := Resolve(m, path), Resolve(m, target);
              && r.At? && t.At? && r.alias == t.alias && m[r.alias].mode == ReadWrite
              && CanRename(s.host.nodes, JoinPath(m[r.alias].path, r.rel), JoinPath(m[r.alias].path, t.rel))
  {
  }

  /** Requests to exec mappings change their stored output at most, and reading gives back what was stored last. */
  lemma ExecTouchesOutputOnly(runs: string -> bool, m: Table, s: Vfs, req: Request)
    requires RootsOk(m) && !req.Send? && Resolve(m, req.path).At?
    requires m[Resolve(m, req.path).alias].mode == Exec
    ensures var a, s' := Resolve(m, req.path).alias, Handle(runs, m, s, req).0;
            && s'.host == s.host
            && (forall b :: b != a && b in s.output ==> b in s'.output && s'.output[b] == s.output[b])
            && (forall b :: b != a && b in s'.output ==> b in s.output)
            && (Handle(runs, m, s, req).1 == Discarding ==> s'.output[a] == req.ran)
            && (Handle(runs, m, s, req).1 != Discarding ==> s' == s)
  {
  }

  /** A mapping with a mode other than the three is written to as a read-write one is. */
  lemma OtherModeWrites(runs: string -> bool, m: Table, s: Vfs, path: string, ran: Option<Bytes>, fd: nat)
    requires RootsOk(m) && HostInv(s.host) && Resolve(m, path).At? && m[Resolve(m, path).alias].mode.Other?
    ensures var r := Resolve(m, path);
            Handle(runs, m, s, Write(path, ran, fd, Fine)).1 == Writing(fd) <==>
              CanWrite(s.host, m[r.alias].root, r.rel)
  {
    var r := Resolve(m, path);
    ResolveNormal(m, path);
    WriteIs(runs, m, s, path, ran, fd, Fine);
    OpenForWriteOutcome(s.host, m[r.alias].root, r.rel, fd, Fine);
  }

  /** But it refuses every command. */
  lemma OtherModeRefuses(runs: string -> bool, m: Table, s: Vfs, verb: Verb, path: string, target: string, f: Fault)
    requires RootsOk(m) && Resolve(m, path).At? && m[Resolve(m, path).alias].mode.Other? && verb != OtherVerb
    ensures Handle(runs, m, s, Command(verb, path, target, f)) == (s, Permission)
  {
  }

  /** Requests by a path with "~", or one that leads to no mapping, do nothing. */
  lemma UnresolvedRefused(runs: string -> bool, m: Table, s: Vfs, req: Request)
    requires RootsOk(m) && !req.Send?
    requires '~' in req.path || Elements(req.path) == [] || Elements(req.path)[0] !in m
    requires Elements(req.path) == [] ==> Rooted(req.path) || DOT !in m
    ensures Handle(runs, m, s, req) == (s, NotExist)
  {
    if '~' !in req.path {
      ResolveElements(m, req.path);
    }
  }

  /** And neither does a rename to such a path. */
  lemma UnresolvedTarget(runs: string -> bool, m: Table, s: Vfs, path: string, target: string, f: Fault)
    requires RootsOk(m)
    requires '~' in target || Elements(target) == [] || Elements(target)[0] !in m
    requires Elements(target) == [] ==> Rooted(target) || DOT !in m
    ensures var (s', reply) := Handle(runs, m, s, Command(Move, path, target, f)); s' == s && reply != Completed
  {
    if '~' !in target {
      ResolveElements(m, target);
    }
  }

  /** A path that goes up out of its mapping, or whose directory is gone, is not followed through the handle. */
  lemma EscapeRefused(runs: string -> bool, m: Table, s: Vfs, req: Request)
    requires RootsOk(m) && HostInv(s.host)
    requires req.Read? || req.Write? || (req.Command? && req.verb in {MakeDir, RemoveFile, RemoveDir})
    requires Resolve(m, req.path).At? && m[Resolve(m, req.path).alias].mode == ReadWrite
    requires var r := Resolve(m, req.path);
             m[r.alias].root !in s.host.roots || ".." in Split(r.rel, '/')
    ensures Handle(runs, m, s, req) == (s, Error)
  {
    var r := Resolve(m, req.path);
    var root := m[r.alias].root;
    SplitPiece(DOT, "", SEP);
    assert Inside(s.host, root, r.rel).None?;
    match req {
      case Read(_, _) =>
      case Write(path, ran, fd, fault) =>
        ResolveNormal(m, path);
        WriteIs(runs, m, s, path, ran, fd, fault);
        NotAFile(s.host, root, r.rel, fd, fault);
      case Command(verb, path, target, fault) =>
        CommandIs(runs, m, s, verb, path, target, fault);
    }
  }

  /** A read-only mapping is only read. */
  lemma ReadOnlyRefuses(runs: string -> bool, m: Table, s: Vfs, req: Request)
    requires RootsOk(m) && (req.Write? || (req.Command? && req.verb != OtherVerb))
    requires Resolve(m, req.path).At? && m[Resolve(m, req.path).alias].mode == ReadOnly
    ensures Handle(runs, m, s, req) == (s, Permission)
  {
  }

  /** What is read: the node at the path, or what the program of an exec mapping printed last. */
  lemma ReadOutcome(runs: string -> bool, m: Table, s: Vfs, path: string)
    requires RootsOk(m) && Resolve(m, path).At?
    ensures var r := Resolve(m, path); var (s', reply) := Handle(runs, m, s, Read(path, Fine));
            && s' == s
            && if m[r.alias].mode == Exec then
                 if r.alias in s.output && s.output[r.alias].Some?
                 then reply == Reading(File(s.output[r.alias].value))
                 else reply == NotExist
               else
                 var p := Inside(s.host, m[r.alias].root, r.rel);
                 if p.Some? && p.value in s.host.nodes then reply == Reading(s.host.nodes[p.value]) else reply == Error
  {
  }

  /** What a program prints is what reading its mapping gives, until it runs again. */
  lemma PrintedThenRead(runs: string -> bool, m: Table, s: Vfs, path: string, ran: Option<Bytes>, fd: nat, f: Fault)
    requires RootsOk(m) && Resolve(m, path).At?
    requires var e := m[Resolve(m, path).alias]; e.mode == Exec && e.path != "" && runs(e.path)
    ensures var (s', reply) := Handle(runs, m, s, Write(path, ran, fd, f));
            && reply == Discarding
            && Handle(runs, m, s', Read(path, Fine)).1 == if ran.Some? then Reading(File(ran.value)) else NotExist
  {
  }

  /** The request is answered without a file: opening an exec mapping whose path names no program. */
  lemma NoProgram(runs: string -> bool, m: Table, s: Vfs, path: string, ran: Option<Bytes>, fd: nat, f: Fault)
    requires RootsOk(m) && Resolve(m, path).At?
    requires var e := m[Resolve(m, path).alias]; e.mode == Exec && (e.path == "" || !runs(e.path))
    ensures Handle(runs, m, s, Write(path, ran, fd, f)) == (s, NotExist)
  {
  }

  /** Opening for writing with any mode but read-only and exec. */
  lemma WriteOutcome(runs: string -> bool, m: Table, s: Vfs, path: string, ran: Option<Bytes>, fd: nat, f: Fault)
    requires RootsOk(m) && HostInv(s.host) && Resolve(m, path).At?
    requires m[Resolve(m, path).alias].mode !in {ReadOnly, Exec}
    ensures var r := Resolve(m, path); var root := m[r.alias].root;
            var (s', reply) := Handle(runs, m, s, Write(path, ran, fd, f));
            if CanWrite(s.host, root, r.rel) && f == Fine then
              reply == Writing(fd) && s' == s.(host := WithNewFile(s.host, Inside(s.host, root, r.rel).value, fd))
            else
              reply == Error
  {
    var r := Resolve(m, path);
    ResolveNormal(m, path);
    WriteIs(runs, m, s, path, ran, fd, f);
    OpenForWriteOutcome(s.host, m[r.alias].root, r.rel, fd, f);
  }

  predicate NormalRel(rel: string) {
    rel == DOT || Normal(false, Split(rel, SEP))
  }

  /** The file is there, or can be made after at most one directory was made for it. */
  predicate CanWrite(h: Host, root: Root, rel: string) {
    var p := Inside(h, root, rel);
    p.Some? && rel != DOT && p.value != [] && CanWriteAt(h.nodes, p.value)
  }

  /**
    What opening for writing does: an empty file, its directory if that was missing, or nothing at
    all, except that a directory that was missing stays when the host then refuses the file.
    */
  lemma OpenForWriteOutcome(h: Host, root: Root, rel: string, fd: nat, fault: Fault)
    requires HostInv(h) && NormalRel(rel)
    ensures var (h', reply) := OpenForWrite(h, root, rel, fd, fault);
            if CanWrite(h, root, rel) && fault == Fine then
              reply == Writing(fd) && h' == WithNewFile(h, Inside(h, root, rel).value, fd)
            else
              reply == Error
              && h' == if fault == Second && MissesDirectory(h, root, rel)
                       then WithDirectory(h, Inside(h, root, rel).value)
                       else h
  {
    var p := Inside(h, root, rel);
    if root in h.roots {
      DirIsParent(h, root, rel);
    }
    if p.Some? && rel != DOT {
      MakeFileOutcome(h, p.value, fd, fault);
      assert OpenForWrite(h, root, rel, fd, fault)
          == if fault == First then (h, Error) else MakeFile(h, Parent(p.value), p, fd, fault);
    } else {
      NotAFile(h, root, rel, fd, fault);
    }
  }

  /** A path that leads nowhere, or to the directory of the handle, is not opened and has nothing made for it. */
  lemma NotAFile(h: Host, root: Root, rel: string, fd: nat, fault: Fault)
    requires HostInv(h) && NormalRel(rel) && (Inside(h, root, rel).None? || rel == DOT)
    ensures OpenForWrite(h, root, rel, fd, fault) == (h, Error)
  {
    if root in h.roots {
      DirIsParent(h, root, rel);
      assert IsDir(h.nodes, h.roots[root]);
    }
  }

  lemma MakeFileOutcome(h: Host, p: Path, fd: nat, fault: Fault)
    requires HostInv(h) && p != []
    ensures var (h', reply) := MakeFile(h, Parent(p), Some(p), fd, fault);
            if CanWriteAt(h.nodes, p) && fault != Second then reply == Writing(fd) && h' == WithNewFile(h, p, fd)
            else
              reply == Error
              && h' == if fault == Second && CanAdd(h.nodes, Parent(p)) then WithDirectory(h, p) else h
  {
    MkdirThenCreate(h, p, fd);
  }

  /** The file's directory is missing, but could be made. */
  predicate MissesDirectory(h: Host, root: Root, rel: string) {
    var p := Inside(h, root, rel);
    p.Some? && rel != DOT && p.value != [] && CanAdd(h.nodes, Parent(p.value))
  }

  function WithDirectory(h: Host, p: Path): Host
    requires p != []
  {
    h.(nodes := h.nodes[Parent(p) := Dir])
  }

  /** Opening for writing fails and changes the tree exactly if a directory was made for a file that is then refused. */
  lemma FailedOpenChangesExactly(h: Host, root: Root, rel: string, fd: nat, fault: Fault)
    requires HostInv(h) && NormalRel(rel)
    ensures var (h', reply) := OpenForWrite(h, root, rel, fd, fault);
            reply == Error && h' != h <==> fault == Second && MissesDirectory(h, root, rel)
  {
    OpenForWriteOutcome(h, root, rel, fd, fault);
  }

  function WithNewFile(h: Host, p: Path, fd: nat): Host
    requires p != []
  {
    Host((if Parent(p) in h.nodes then h.nodes else h.nodes[Parent(p) := Dir])[p := File([])],
         h.roots, h.files[fd := p])
  }

  predicate CanWriteAt(nodes: map<Path, Node>, p: Path)
    requires p != []
  {
    IsFile(nodes, p) || (p !in nodes && (IsDir(nodes, Parent(p)) || CanAdd(nodes, Parent(p))))
  }

  lemma MkdirThenCreate(h: Host, p: Path, fd: nat)
    requires HostInv(h) && p != []
    ensures var (h1, made) := Mkdir(h, Parent(p)); var (h2, created) := Create(h1, p, fd);
            if CanWriteAt(h.nodes, p) then
              made != Failed && created == Done && h1.roots == h.roots && h2 == WithNewFile(h, p, fd)
            else
              h1 == h && (made == Failed || created == Failed)
  {
    if p !in h.nodes && !IsDir(h.nodes, Parent(p)) {
      NothingBelow(h.nodes, Parent(p));
    }
  }

  /** The directory that is made is the one the file lies in. */
  lemma DirIsParent(h: Host, root: Root, rel: string)
    requires root in h.roots && NormalRel(rel)
    ensures if rel == DOT then Inside(h, root, DirName(rel)) == Inside(h, root, rel) == Some(h.roots[root])
            else if Inside(h, root, rel).Some? then
              var p := Inside(h, root, rel).value;
              p != [] && Inside(h, root, DirName(rel)) == Some(Parent(p))
            else Inside(h, root, DirName(rel)).None? || Inside(h, root, DirName(rel)).value == h.roots[root]
  {
    var es, base := Split(rel, SEP), h.roots[root];
    if rel == DOT {
      SplitPiece(DOT, "", SEP);
      assert base + [] == base;
    } else if |es| == 1 {
      assert Parent(base + es) == base && base + [] == base;
    } else {
      DirElements(rel);
      assert Parent(base + es) == base + es[..|es| - 1];
    }
  }

  lemma DirElements(rel: string)
    requires rel != DOT && NormalRel(rel) && |Split(rel, SEP)| > 1
    ensures var es := Split(rel, SEP);
            RelElements(DirName(rel)) == es[..|es| - 1] && (UP in es ==> UP in es[..|es| - 1])
  {
    var es := Split(rel, SEP);
    SplitJoin(es[..|es| - 1], SEP);
    InitIsNoDot(es);
    UpComesFirst(es);
  }

  lemma UpComesFirst(es: seq<string>)
    requires Normal(false, es) && |es| > 1
    ensures UP in es ==> UP in es[..|es| - 1]
  {
    if UP in es {
      assert es[0] == UP == es[..|es| - 1][0];
    }
  }

  lemma InitIsNoDot(es: seq<string>)
    requires Normal(false, es) && |es| > 1
    ensures Join(es[..|es| - 1], SEP) != DOT
  {
    var init := es[..|es| - 1];
    SplitJoin(init, SEP);
    SplitPiece(DOT, "", SEP);
    assert init[0] == es[0] != DOT;
  }

  predicate Fails(reply: Reply) {
    reply == NotExist || reply == Permission || reply == Error
  }

  /** A write to a file whose directory is missing, where the host makes the directory and refuses the file. */
  predicate LeavesDirectory(m: Table, h: Host, req: Request)
    requires RootsOk(m)
  {
    && req.Write? && req.fault == Second
    && var r := Resolve(m, req.path);
       r.At? && Writable(m[r.alias]) && MissesDirectory(h, m[r.alias].root, r.rel)
  }

  /** A request that is refused or fails changes something exactly if it leaves a directory, and then only that. */
  lemma FailureChangesExactly(runs: string -> bool, m: Table, s: Vfs, req: Request)
    requires RootsOk(m) && HostInv(s.host)
    ensures var (s', reply) := Handle(runs, m, s, req); Fails(reply) && s' != s <==> LeavesDirectory(m, s.host, req)
    ensures LeavesDirectory(m, s.host, req) ==>
              var r := Resolve(m, req.path);
              Handle(runs, m, s, req).0
              == s.(host := WithDirectory(s.host, Inside(s.host, m[r.alias].root, r.rel).value))
  {
    match req {
      case Write(path, ran, fd, fault) =>
        if Resolve(m, path).At? && Writable(m[Resolve(m, path).alias]) {
          FailedWrite(runs, m, s, path, ran, fd, fault);
        }
      case Command(verb, path, target, fault) =>
        FailedCommand(runs, m, s, verb, path, target, fault);
      case _ =>
    }
  }

  /** For every writable mapping there is such a request, as long as the mapping's directory has no "d" in it. */
  lemma DirectoryIsLeft(runs: string -> bool, m: Table, s: Vfs, alias: string, ran: Option<Bytes>, fd: nat)
    returns (req: Request)
    requires RootsOk(m) && HostInv(s.host) && alias in m && Writable(m[alias]) && Plain(alias) && '~' !in alias
    requires m[alias].root in s.host.roots && s.host.roots[m[alias].root] + ["d"] !in s.host.nodes
    ensures var (s', reply) := Handle(runs, m, s, req); Fails(reply) && s' != s
  {
    req := Write(VirtualPath(alias, "d/f"), ran, fd, Second);
    var base := s.host.roots[m[alias].root];
    SplitTwo();
    ResolveVirtualPath(m, alias, "d/f");
    assert Parent(base + ["d", "f"]) == base + ["d"] && Parent(base + ["d"]) == base;
    FailureChangesExactly(runs, m, s, req);
  }

  lemma SplitTwo()
    ensures Split("d/f", SEP) == ["d", "f"]
  {
    SplitPiece("f", "", SEP);
    SplitPiece("d", "f", SEP);
    assert "d/f" == "d" + [SEP] + "f";
  }

  ghost predicate OneDirectoryMore(h: Host, h': Host) {
    exists p :: CanAdd(h.nodes, p) && h' == h.(nodes := h.nodes[p := Dir])
  }

  /**
    So a request that is refused or fails leaves everything as it was, but for the directory that was
    made for a file which the host then refuses to open.
    */
  lemma FailureChangesNothing(runs: string -> bool, m: Table, s: Vfs, req: Request)
    requires RootsOk(m) && HostInv(s.host)
    ensures var (s', reply) := Handle(runs, m, s, req);
            Fails(reply) ==>
              || s' == s
              || (req.Write? && req.fault == Second && s'.output == s.output && OneDirectoryMore(s.host, s'.host))
  {
    FailureChangesExactly(runs, m, s, req);
  }

  lemma FailedCommand(runs: string -> bool, m: Table, s: Vfs, verb: Verb, path: string, target: string, fault: Fault)
    requires RootsOk(m)
    ensures var (s', reply) := Handle(runs, m, s, Command(verb, path, target, fault)); reply != Completed ==> s' == s
  {
  }

  /** Writes are refused in read-only mode, and exec mode has no files. */
  predicate Writable(e: MapEntry) {
    e.mode != ReadOnly && e.mode != Exec
  }

  lemma FailedWrite(runs: string -> bool, m: Table, s: Vfs, path: string, ran: Option<Bytes>, fd: nat, fault: Fault)
    requires RootsOk(m) && HostInv(s.host) && Resolve(m, path).At? && Writable(m[Resolve(m, path).alias])
    ensures var (s', reply) := Handle(runs, m, s, Write(path, ran, fd, fault));
            var r := Resolve(m, path); var root := m[r.alias].root;
            && reply in {Writing(fd), Error}
            && (reply == Error && s' != s <==> fault == Second && MissesDirectory(s.host, root, r.rel))
            && (reply == Error && s' != s ==>
                  s' == s.(host := WithDirectory(s.host, Inside(s.host, root, r.rel).value)))
  {
    var r := Resolve(m, path);
    ResolveNormal(m, path);
    WriteIs(runs, m, s, path, ran, fd, fault);
    OpenForWriteOutcome(s.host, m[r.alias].root, r.rel, fd, fault);
    FailedOpenChangesExactly(s.host, m[r.alias].root, r.rel, fd, fault);
  }

  /** The node at the path, if there is one, is the same in both trees. */
  predicate SameAt(h: Host, h': Host, p: Path) {
    (p in h.nodes <==> p in h'.nodes) && (p in h.nodes ==> h.nodes[p] == h'.nodes[p])
  }

  /** A directory that is asked for and reported as made is there, unless a file stands in its place. */
  lemma MkdirOutcome(h: Host, root: Root, rel: string)
    requires root in h.roots && UP !in RelElements(rel)
    ensures var (h', reply) := MkdirIn(h, root, rel); var p := h.roots[root] + RelElements(rel);
            && (reply == Completed <==> p in h.nodes || CanAdd(h.nodes, p))
            && (reply == Completed ==> IsFile(h.nodes, p) || IsDir(h'.nodes, p))
            && (p in h.nodes ==> h' == h)
            && (forall q :: q != p ==> SameAt(h, h', q))
  {
  }

  /** A removal takes exactly one node, which has nothing in it. */
  lemma RemoveOutcome(h: Host, root: Root, rel: string)
    requires root in h.roots && UP !in RelElements(rel)
    ensures var (h', reply) := RemoveIn(h, root, rel); var p := h.roots[root] + RelElements(rel);
            && (reply == Completed <==> rel != DOT && p != [] && p in h.nodes && !HasChild(h.nodes, p))
            && (reply == Completed ==> p !in h'.nodes)
            && (forall q :: q != p ==> SameAt(h, h', q))
  {
  }

  /** The path leads into a read-write mapping, to the place `p` on the host. */
  predicate LeadsTo(m: Table, h: Host, path: string, p: Path) {
    && Resolve(m, path).At? && m[Resolve(m, path).alias].mode == ReadWrite && m[Resolve(m, path).alias].root != null
    && Inside(h, m[Resolve(m, path).alias].root, Resolve(m, path).rel) == Some(p)
  }

  /**
    Mkdir: completed exactly if something is there already or the place is free in a directory.
    Afterwards something is there, a directory if it is new, and no node is lost or changed.
    */
  lemma MakeDirRequest(runs: string -> bool, m: Table, s: Vfs, path: string, target: string, p: Path)
    requires RootsOk(m) && LeadsTo(m, s.host, path, p)
    ensures var (s', reply) := Handle(runs, m, s, Command(MakeDir, path, target, Fine));
            && reply in {Completed, Error}
            && (reply == Completed <==> p in s.host.nodes || (p != [] && IsDir(s.host.nodes, Parent(p))))
            && (reply == Completed && p !in s.host.nodes ==> s'.host.nodes == s.host.nodes[p := Dir])
            && (reply == Error || p in s.host.nodes ==> s'.host.nodes == s.host.nodes)
            && s'.host.roots == s.host.roots && s'.host.files == s.host.files && s'.output == s.output
  {
    CommandIs(runs, m, s, MakeDir, path, target, Fine);
  }

  /**
    Remove and Rmdir: completed exactly if the path is not the mapping's own directory and leads to a
    node with nothing in it. Afterwards that node is gone, and every other one is as it was.
    */
  lemma RemoveRequest(runs: string -> bool, m: Table, s: Vfs, verb: Verb, path: string, target: string, p: Path)
    requires RootsOk(m) && LeadsTo(m, s.host, path, p) && verb in {RemoveFile, RemoveDir}
    ensures var (s', reply) := Handle(runs, m, s, Command(verb, path, target, Fine));
            && reply in {Completed, Error}
            && (reply == Completed <==>
                  && Resolve(m, path).rel != "." && p != [] && p in s.host.nodes
                  && forall q :: q in s.host.nodes && q != [] ==> q[..|q| - 1] != p)
            && (reply == Completed ==> s'.host.nodes == s.host.nodes - {p})
            && (reply == Error ==> s' == s)
            && s'.output == s.output
  {
    var r := Resolve(m, path);
    CommandIs(runs, m, s, verb, path, target, Fine);
    RemoveResult(s.host, m[r.alias].root, r.rel);
  }

  lemma RemoveResult(h: Host, root: Root, rel: string)
    requires Inside(h, root, rel).Some?
    ensures var p, (h', reply) := Inside(h, root, rel).value, RemoveIn(h, root, rel);
            && reply in {Completed, Error}
            && (reply == Completed <==> rel != "." && p != [] && p in h.nodes && !HasChild(h.nodes, p))
            && (reply == Completed ==> h'.nodes == h.nodes - {p}) && (reply == Error ==> h' == h)
  {
  }

  /** Rename: completed exactly if both paths are in the one read-write mapping and the host can do it. */
  lemma MoveRequest(runs: string -> bool, m: Table, s: Vfs, path: string, target: string)
    requires RootsOk(m)
    ensures var (s', reply) := Handle(runs, m, s, Command(Move, path, target, Fine));
            var r, t := Resolve(m, path), Resolve(m, target);
            if r.At? && t.At? && r.alias == t.alias && m[r.alias].mode == ReadWrite then
              var src, dst := JoinPath(m[r.alias].path, r.rel), JoinPath(m[r.alias].path, t.rel);
              && (reply == Completed <==> CanRename(s.host.nodes, src, dst))
              && (reply == Completed && src == dst ==> s' == s)
              && (reply == Completed && src != dst && Tree(s.host.nodes) ==>
                    IsMove(s.host.nodes, s'.host.nodes, src, dst) && s'.output == s.output)
            else
              reply != Completed && s' == s
  {
    var r, t := Resolve(m, path), Resolve(m, target);
    if r.At? && t.At? && r.alias == t.alias && m[r.alias].mode == ReadWrite {
      MoveIs(runs, m, s, path, target, Fine);
      var src, dst := JoinPath(m[r.alias].path, r.rel), JoinPath(m[r.alias].path, t.rel);
      if CanRename(s.host.nodes, src, dst) && src != dst && Tree(s.host.nodes) {
        MovedNodes(s.host.nodes, src, dst);
      }
    } else {
      RenameSameAlias(runs, m, s, path, target, Fine);
    }
  }

  /** The handle's directory is still where it was when it was opened. */
  predicate AtHome(h: Host, e: MapEntry) {
    e.root != null && e.root in h.roots && h.roots[e.root] == HostPath(e.path)
  }

  /** After a rename the new path reads as the old one did, and the old one is gone. */
  lemma MoveThenRead(runs: string -> bool, m: Table, s: Vfs, path: string, target: string, f: Fault, s': Vfs)
    requires RootsOk(m) && HostInv(s.host)
    requires Handle(runs, m, s, Command(Move, path, target, f)) == (s', Completed)
    requires var r, t := Resolve(m, path), Resolve(m, target);
             r.At? && r != t && ConfinedResolution(m, r) && ConfinedResolution(m, t) && AtHome(s.host, m[r.alias])
    ensures Handle(runs, m, s', Read(target, Fine)).1 == Handle(runs, m, s, Read(path, Fine)).1
    ensures Handle(runs, m, s', Read(path, Fine)).1 == Error
  {
    var r, t := Resolve(m, path), Resolve(m, target);
    MoveOf(runs, m, s, path, target, f, s');
    ReadOf(runs, m, s, path);
    ReadOf(runs, m, s', path);
    ReadOf(runs, m, s', target);
    var e := m[r.alias];
    JoinConfined(e.path, r.rel);
    JoinConfined(e.path, t.rel);
    RelElementsInjective(r.rel, t.rel);
    MovedIsRead(s.host, e.root, HostPath(e.path), r.rel, t.rel);
  }

  lemma ReadOf(runs: string -> bool, m: Table, s: Vfs, path: string)
    requires RootsOk(m) && Resolve(m, path).At? && m[Resolve(m, path).alias].mode != Exec
    ensures var r := Resolve(m, path);
            Handle(runs, m, s, Read(path, Fine)) == (s, OpenForRead(s.host, m[r.alias].root, r.rel))
  {
  }

  lemma MoveOf(runs: string -> bool, m: Table, s: Vfs, path: string, target: string, f: Fault, s': Vfs)
    requires RootsOk(m) && Handle(runs, m, s, Command(Move, path, target, f)) == (s', Completed)
    ensures var r, t := Resolve(m, path), Resolve(m, target);
            && r.At? && t.At? && r.alias == t.alias && m[r.alias].mode == ReadWrite
            && var src, dst := JoinPath(m[r.alias].path, r.rel), JoinPath(m[r.alias].path, t.rel);
               CanRename(s.host.nodes, src, dst) && s' == s.(host := Rename(s.host, src, dst).0)
  {
  }

  lemma MovedIsRead(h: Host, root: Root, base: Path, rel: string, target: string)
    requires HostInv(h) && root in h.roots && h.roots[root] == base && Confined(rel) && Confined(target)
    requires RelElements(rel) != RelElements(target)
    requires CanRename(h.nodes, base + RelElements(rel), base + RelElements(target))
    ensures var h' := Rename(h, base + RelElements(rel), base + RelElements(target)).0;
            OpenForRead(h', root, target) == OpenForRead(h, root, rel) && OpenForRead(h', root, rel) == Error
  {
    var src, dst := base + RelElements(rel), base + RelElements(target);
    assert src[|base|..] == RelElements(rel) && dst[|base|..] == RelElements(target);
    MovedEnds(h.nodes, src, dst);
    assert !(src <= base) by {
      NothingMovesBase(h.nodes, base, src, dst);
    }
    var h' := WithMoved(h, Moved(h.nodes, src, dst), src, dst);
    assert h'.roots[root] == base;
    assert Inside(h', root, target) == Some(dst) && Inside(h, root, rel) == Some(src) == Inside(h', root, rel);
    assert Rename(h, src, dst).0 == h';
  }

  lemma NothingMovesBase(nodes: map<Path, Node>, base: Path, src: Path, dst: Path)
    requires Tree(nodes) && CanRename(nodes, src, dst) && base <= src && base <= dst && src != dst
    ensures !(src <= base)
  {
  }

  lemma MovedEnds(nodes: map<Path, Node>, src: Path, dst: Path)
    requires Tree(nodes) && CanRename(nodes, src, dst) && src != dst
    ensures var moved := Moved(nodes, src, dst); dst in moved && moved[dst] == nodes[src] && src !in moved
  {
    MovedNodes(nodes, src, dst);
    NotInside(nodes, src, dst);
    assert src + [] == src && dst + [] == dst;
  }

  lemma RelElementsInjective(a: string, b: string)
    requires Confined(a) && Confined(b)
    ensures RelElements(a) == RelElements(b) ==> a == b
  {
    JoinSplit(a, SEP);
    JoinSplit(b, SEP);
  }

  /** What opening for writing leaves: the descriptor is on the file that the path leads to, which is empty. */
  lemma WriteOf(runs: string -> bool, m: Table, s: Vfs, path: string, ran: Option<Bytes>, fd: nat, f: Fault, s': Vfs)
    requires RootsOk(m) && HostInv(s.host) && Handle(runs, m, s, Write(path, ran, fd, f)) == (s', Writing(fd))
    ensures var r := Resolve(m, path);
            && r.At? && m[r.alias].mode != Exec && fd in s'.host.files
            && Inside(s'.host, m[r.alias].root, r.rel) == Some(s'.host.files[fd])
            && s'.host.files[fd] in s'.host.nodes && s'.host.nodes[s'.host.files[fd]] == File([])
    ensures HostInv(s'.host) && s'.host.roots == s.host.roots
  {
    var r := Resolve(m, path);
    ResolveNormal(m, path);
    WriteIs(runs, m, s, path, ran, fd, f);
    OpenForWriteOutcome(s.host, m[r.alias].root, r.rel, fd, f);
    OpenForWriteKeeps(s.host, m[r.alias].root, r.rel, fd, f);
  }

  lemma OpenForWriteKeeps(h: Host, root: Root, rel: string, fd: nat, f: Fault)
    requires HostInv(h)
    ensures HostInv(OpenForWrite(h, root, rel, fd, f).0)
  {
    var dir, p := Inside(h, root, DirName(rel)), Inside(h, root, rel);
    if dir.Some? {
      MkdirKeeps(h, dir.value);
      if p.Some? {
        CreateKeeps(Mkdir(h, dir.value).0, p.value, fd);
      }
    }
  }

  /** Data that is sent piece by piece. */
  function SendAll(runs: string -> bool, m: Table, s: Vfs, fd: nat, chunks: seq<Chunk>): Vfs
    requires RootsOk(m)
  {
    if |chunks| == 0 then s
    else Handle(runs, m, SendAll(runs, m, s, fd, chunks[..|chunks| - 1]), Send(fd, chunks[|chunks| - 1])).0
  }

  lemma {:induction false} SendAllStores(runs: string -> bool, m: Table, s: Vfs, fd: nat, chunks: seq<Chunk>)
    requires RootsOk(m)
    ensures SendAll(runs, m, s, fd, chunks) == s.(host := StoreAll(s.host, fd, chunks))
  {
    if |chunks| > 0 {
      SendAllStores(runs, m, s, fd, chunks[..|chunks| - 1]);
    }
  }

  lemma SendThenRead(runs: string -> bool, m: Table, s: Vfs, path: string, fd: nat, chunks: seq<Chunk>)
    requires RootsOk(m) && Resolve(m, path).At? && m[Resolve(m, path).alias].mode != Exec
    requires fd in s.host.files && IsFile(s.host.nodes, s.host.files[fd])
    requires var r := Resolve(m, path); Inside(s.host, m[r.alias].root, r.rel) == Some(s.host.files[fd])
    ensures var content := s.host.nodes[s.host.files[fd]].content;
            Handle(runs, m, SendAll(runs, m, s, fd, chunks), Read(path, Fine)).1
            == Reading(File(PatchedAll(content, chunks)))
  {
    SendAllStores(runs, m, s, fd, chunks);
    StoreAllOutcome(s.host, fd, chunks);
    ReadOf(runs, m, SendAll(runs, m, s, fd, chunks), path);
  }

  /** A file is read back as it was sent, whatever the order of its pieces and even if some come twice. */
  lemma WriteThenRead(runs: string -> bool, m: Table, s: Vfs, path: string, ran: Option<Bytes>, fd: nat, f: Fault,
                      s': Vfs, content: Bytes, chunks: seq<Chunk>)
    requires RootsOk(m) && HostInv(s.host)
    requires Handle(runs, m, s, Write(path, ran, fd, f)) == (s', Writing(fd))
    requires PiecesOf(content, chunks) && forall k :: 0 <= k < |content| ==> Covered(chunks, k)
    ensures Handle(runs, m, SendAll(runs, m, s', fd, chunks), Read(path, Fine)).1 == Reading(File(content))
  {
    WriteOf(runs, m, s, path, ran, fd, f, s');
    SendThenRead(runs, m, s', path, fd, chunks);
    PiecesGiveContent(content, chunks);
  }

  /** A file that is renamed while it is written gets the data under its new name, on top of what it has. */
  lemma SendAfterMove(runs: string -> bool, m: Table, s: Vfs, path: string, target: string, f: Fault, s': Vfs,
                      fd: nat, chunks: seq<Chunk>)
    requires RootsOk(m) && HostInv(s.host)
    requires Handle(runs, m, s, Command(Move, path, target, f)) == (s', Completed)
    requires var r, t := Resolve(m, path), Resolve(m, target);
             && r.At? && r != t && ConfinedResolution(m, r) && ConfinedResolution(m, t) && AtHome(s.host, m[r.alias])
             && fd in s.host.files && Inside(s.host, m[r.alias].root, r.rel) == Some(s.host.files[fd])
    ensures var content := s.host.nodes[s.host.files[fd]].content;
            Handle(runs, m, SendAll(runs, m, s', fd, chunks), Read(target, Fine)).1
            == Reading(File(PatchedAll(content, chunks)))
  {
    var r, t := Resolve(m, path), Resolve(m, target);
    MoveOf(runs, m, s, path, target, f, s');
    var e := m[r.alias];
    JoinConfined(e.path, r.rel);
    JoinConfined(e.path, t.rel);
    RelElementsInjective(r.rel, t.rel);
    DescriptorFollows(s.host, e.root, HostPath(e.path), r.rel, t.rel, fd);
    SendThenRead(runs, m, s', target, fd, chunks);
  }

  lemma DescriptorFollows(h: Host, root: Root, base: Path, rel: string, target: string, fd: nat)
    requires HostInv(h) && root in h.roots && h.roots[root] == base && Confined(rel) && Confined(target)
    requires RelElements(rel) != RelElements(target)
    requires CanRename(h.nodes, base + RelElements(rel), base + RelElements(target))
    requires fd in h.files && h.files[fd] == base + RelElements(rel)
    ensures var h' := Rename(h, base + RelElements(rel), base + RelElements(target)).0;
            && fd in h'.files && Inside(h', root, target) == Some(h'.files[fd])
            && h'.files[fd] in h'.nodes && h'.nodes[h'.files[fd]] == h.nodes[h.files[fd]]
  {
    var src, dst := base + RelElements(rel), base + RelElements(target);
    assert src[|base|..] == RelElements(rel) && dst[|base|..] == RelElements(target);
    MovedEnds(h.nodes, src, dst);
    assert !(src <= base) by {
      NothingMovesBase(h.nodes, base, src, dst);
    }
    var h' := WithMoved(h, Moved(h.nodes, src, dst), src, dst);
    assert h'.roots[root] == base && src[|src|..] == [] && dst + [] == dst;
    assert h'.files[fd] == dst;
    assert Rename(h, src, dst).0 == h';
  }
}
