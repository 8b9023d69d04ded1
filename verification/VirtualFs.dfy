/** The request handler object of internal/handlers.go, proved against the functions of Handlers. */
module VirtualFs {
  import opened Wrappers
  import opened ConfigModel
  import opened ConfigSpec
  import opened ServerObjects
  import opened Paths
  import opened HostFs
  import opened Handlers
  import opened Listing

  /** The host that all handlers work on. A call can fail for reasons that its tree does not show. */
  class Machine {
    var host: Host

    constructor (host: Host)
      ensures this.host == host
    {
      this.host := host;
    }

    method MkdirAt(root: Root, rel: string, fails: bool) returns (st: Status)
      modifies this
      ensures var p := Inside(old(host), root, rel);
              (host, st) == if p.None? || fails then (old(host), Failed) else Mkdir(old(host), p.value)
    {
      var p := Inside(host, root, rel);
      if p.None? || fails {
        return Failed;
      }
      var (h, s) := Mkdir(host, p.value);
      host, st := h, s;
    }

    /** OpenFile with O_RDWR, O_CREATE and O_TRUNC. */
    method OpenFile(root: Root, rel: string, fd: nat, fails: bool) returns (st: Status)
      modifies this
      ensures var p := Inside(old(host), root, rel);
              (host, st) == if p.None? || fails then (old(host), Failed) else Create(old(host), p.value, fd)
    {
      var p := Inside(host, root, rel);
      if p.None? || fails {
        return Failed;
      }
      var (h, s) := Create(host, p.value, fd);
      host, st := h, s;
    }

    method RemoveAt(root: Root, rel: string, fails: bool) returns (st: Status)
      modifies this
      ensures var p := Inside(old(host), root, rel);
              (host, st) == if p.None? || rel == DOT || fails then (old(host), Failed) else Remove(old(host), p.value)
    {
      var p := Inside(host, root, rel);
      if p.None? || rel == DOT || fails {
        return Failed;
      }
      var (h, s) := Remove(host, p.value);
      host, st := h, s;
    }

    /** os.Rename: by names. */
    method Rename(src: Path, dst: Path, fails: bool) returns (st: Status)
      modifies this
      ensures (host, st) == if fails then (old(host), Failed) else HostFs.Rename(old(host), src, dst)
    {
      if fails {
        return Failed;
      }
      var (h, s) := HostFs.Rename(host, src, dst);
      host, st := h, s;
    }
  }

  /** The size that a listing shows for an exec mapping is that of what reading it gives, if it gives anything. */
  lemma ListedSizeIsRead(runs: string -> bool, m: Table, s: Vfs, path: string)
    requires RootsOk(m) && Resolve(m, path).At? && m[Resolve(m, path).alias].mode == Exec
    requires Resolve(m, path).alias in s.output
    ensures var (size, reply) := (OutputSize(s.output[Resolve(m, path).alias]), Handle(runs, m, s, Read(path, Fine)).1);
            if reply == NotExist then size == 0
            else reply.Reading? && reply.node.File? && size == |reply.node.content|
  {
  }

  class Handler {
    const user: User
    const machine: Machine
    const reader: Reader
    const runs: string -> bool  // the path of an exec mapping names a program

    constructor (user: User, machine: Machine, reader: Reader, runs: string -> bool)
      ensures this.user == user && this.machine == machine && this.reader == reader && this.runs == runs
    {
      this.user, this.machine, this.reader, this.runs := user, machine, reader, runs;
    }

    ghost function Table(): Table
      reads user, user.mapping.Values
    {
      Entries(user.mapping)
    }

    ghost function State(): Vfs
      reads user, user.mapping.Values, machine
    {
      Vfs(machine.host, map a | a in user.mapping :: user.mapping[a].output)
    }

    ghost predicate Valid()
      reads user, user.mapping.Values
    {
      Separate(user.mapping) && RootsOk(Table())
    }

    method ResolveMapping(path: string) returns (m: Mapping?, r: Resolution)
      ensures r == Resolve(Table(), path)
      ensures if r.At? then r.alias in user.mapping && m == user.mapping[r.alias] else m == null
    {
      m := null;
      if '~' in path {
        return null, Denied;
      }
      var (alias, rest) := Cut(TrimSlash(Clean(path)));
      if |alias| == 0 {
        return null, Top;
      }
      if alias !in user.mapping {
        return null, Missing;
      }
      m := user.mapping[alias];
      if m.mode == Exec {
        return m, At(alias, "");
      }
      var rel := DOT;
      if rest.Some? && rest.value != "" {
        rel := rest.value;
      }
      r := At(alias, rel);
    }

    method Fileread(path: string, fault: Fault) returns (reply: Reply)
      requires Valid()
      ensures Handle(runs, Table(), State(), Read(path, fault)) == (State(), reply)
    {
      var m, r := ResolveMapping(path);
      if m == null {
        return NotExist;
      }
      assert Table()[r.alias] == m.Entry();
      if m.mode == Exec {
        reply := if m.output.None? then NotExist else Reading(File(m.output.value));
      } else {
        reply := if fault == First then Error else OpenForRead(machine.host, m.root, r.rel);
      }
    }

    method Filewrite(path: string, ran: Option<Bytes>, fd: nat, fault: Fault) returns (reply: Reply)
      requires Valid()
      modifies machine, user.mapping.Values`output
      ensures Valid() && Table() == old(Table())
      ensures Handle(runs, old(Table()), old(State()), Write(path, ran, fd, fault)) == (State(), reply)
    {
      var m, r := ResolveMapping(path);
      if m == null {
        return NotExist;
      }
      assert Table()[r.alias] == m.Entry();
      if m.mode == Exec {
        if m.path == "" || !runs(m.path) {
          return NotExist;
        }
        StoreOutput(m, r.alias, ran, Table(), State());
        return Discarding;
      }
      if m.mode == ReadOnly {
        return Permission;
      }
      reply := WriteFile(m, r.rel, fd, fault, Table(), State());
    }

    method StoreOutput(m: Mapping, alias: string, ran: Option<Bytes>, ghost t: Table, ghost s: Vfs)
      requires Separate(user.mapping) && alias in user.mapping && user.mapping[alias] == m
      requires Table() == t && State() == s
      modifies m`output
      ensures Table() == t && State() == s.(output := s.output[alias := ran])
    {
      m.output := ran;
    }

    method WriteFile(m: Mapping, rel: string, fd: nat, fault: Fault, ghost t: Table, ghost s: Vfs)
      returns (reply: Reply)
      requires m.root != null && Table() == t && State() == s
      modifies machine
      ensures var (h, reply') := OpenForWrite(s.host, m.root, rel, fd, fault);
              Table() == t && State() == s.(host := h) && reply == reply'
    {
      var made := machine.MkdirAt(m.root, DirName(rel), fault == First);
      if made == Failed {
        return Error;
      }
      var created := machine.OpenFile(m.root, rel, fd, fault == Second);
      reply := if created == Failed then Error else Writing(fd);
    }

    method Filecmd(verb: Verb, path: string, target: string, fault: Fault) returns (reply: Reply)
      requires Valid()
      modifies machine
      ensures Handle(runs, Table(), old(State()), Command(verb, path, target, fault)) == (State(), reply)
    {
      var m, r := ResolveMapping(path);
      if m == null {
        return NotExist;
      }
      assert Table()[r.alias] == m.Entry();
      CommandIs(runs, Table(), State(), verb, path, target, fault);
      reply := Perform(verb, m, r.rel, target, fault, Table(), State());
    }

    method Perform(verb: Verb, m: Mapping, rel: string, target: string, fault: Fault, ghost t: Table, ghost s: Vfs)
      returns (reply: Reply)
      requires (m.mode == ReadWrite ==> m.root != null) && RootsOk(t) && Table() == t && State() == s
      modifies machine
      ensures var (h, reply') := CommandIn(s.host, t, m.Entry(), rel, verb, target, fault);
              Table() == t && State() == s.(host := h) && reply == reply'
    {
      if verb == OtherVerb {
        return Completed;
      }
      if m.mode != ReadWrite {
        return Permission;
      }
      if verb == Move {
        reply := RenameFile(m, rel, target, fault, t, s);
      } else {
        reply := MakeOrRemove(m, rel, verb == MakeDir, fault, t, s);
      }
    }

    method MakeOrRemove(m: Mapping, rel: string, make: bool, fault: Fault, ghost t: Table, ghost s: Vfs)
      returns (reply: Reply)
      requires m.root != null && Table() == t && State() == s
      modifies machine
      ensures var (h, reply') := if fault == First then (s.host, Error)
                                 else if make then MkdirIn(s.host, m.root, rel) else RemoveIn(s.host, m.root, rel);
              Table() == t && State() == s.(host := h) && reply == reply'
    {
      var st;
      if make {
        st := machine.MkdirAt(m.root, rel, fault == First);
      } else {
        st := machine.RemoveAt(m.root, rel, fault == First);
      }
      reply := if st == Failed then Error else Completed;
    }

    method RenameFile(m: Mapping, rel: string, target: string, fault: Fault, ghost t: Table, ghost s: Vfs)
      returns (reply: Reply)
      requires m.root != null && RootsOk(t) && Table() == t && State() == s
      modifies machine
      ensures var (h, reply') := MoveIn(s.host, t, m.Entry(), rel, target, fault);
              Table() == t && State() == s.(host := h) && reply == reply'
    {
      var targetM, to := ResolveMapping(target);
      if targetM == null {
        return NotExist;
      }
      assert t[to.alias] == targetM.Entry();
      if m.root != targetM.root {
        return Error;
      }
      reply := RenameOn(JoinPath(m.root.path, rel), JoinPath(targetM.root.path, to.rel), fault == First, t, s);
    }

    method RenameOn(src: Path, dst: Path, fails: bool, ghost t: Table, ghost s: Vfs) returns (reply: Reply)
      requires Table() == t && State() == s
      modifies machine
      ensures var (h, st) := if fails then (s.host, Failed) else HostFs.Rename(s.host, src, dst);
              && Table() == t && State() == s.(host := h)
              && reply == if st == Failed then Error else Completed
    {
      var st := machine.Rename(src, dst, fails);
      reply := if st == Failed then Error else Completed;
    }

    /**
      Lists the virtual root, the output of an exec mapping, one file, or a directory whose entries
      the host delivers.
      */
    method Filelist(path: string, entries: array<Entry>, fault: Fault) returns (infos: Option<seq<Info>>)
      requires Valid()
      modifies entries
      ensures var r, modes := Resolve(Table(), path), map a | a in Table() :: Table()[a].mode;
              if Clean(path) == [SEP] then infos.Some? && ListsMounts(modes, infos.value)
              else if !r.At? then infos == None
              else if modes[r.alias] == Exec then
                infos == Some([Output(Base(path), OutputSize(old(State()).output[r.alias]))])
              else if fault == First then infos == None
              else
                match OpenForRead(machine.host, Table()[r.alias].root, r.rel)
                case Reading(File(content)) => infos == Some([Single(Base(r.rel), |content|)])
                case Reading(Dir) => infos == Some([Up] + Founds(Kept(reader, old(entries[..]))))
                case _ => infos == None
    {
      if Clean(path) == [SEP] {
        var top := ListTop(map a | a in user.mapping :: user.mapping[a].mode);
        return Some(top);
      }
      var m, r := ResolveMapping(path);
      if m == null {
        return None;
      }
      assert Table()[r.alias] == m.Entry();
      if m.mode == Exec {
        return Some([Output(Base(path), OutputSize(m.output))]);
      }
      if fault == First {
        return None;
      }
      match OpenForRead(machine.host, m.root, r.rel) {
        case Reading(File(content)) => infos := Some([Single(Base(r.rel), |content|)]);
        case Reading(Dir) =>
          var found := ListDirectory(reader, entries);
          infos := Some(found);
        case _ => infos := None;
      }
    }
  }
}
