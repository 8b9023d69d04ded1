/** The objects of internal/types.go, and decoding a document into fresh ones. */
module ServerObjects {
  import opened Wrappers
  import opened Cipher
  import opened ConfigModel
  import opened ConfigSpec

  class Mapping {
    var path: string
    var mode: Mode
    var root: Root?
    var output: Option<Bytes>

    constructor (path: string, mode: Mode)
      ensures Entry() == MapEntry(path, mode, null) && output == None
    {
      this.path, this.mode, root, output := path, mode, null, None;
    }

    /** A shallow copy: the handle is shared. */
    constructor Copy(m: Mapping)
      ensures Entry() == m.Entry() && output == m.output
    {
      path, mode, root, output := m.path, m.mode, m.root, m.output;
    }

    ghost function Entry(): MapEntry
      reads this
    {
      MapEntry(path, mode, root)
    }
  }

  ghost function Entries(m: map<string, Mapping>): map<string, MapEntry>
    reads m.Values
  {
    map a | a in m :: m[a].Entry()
  }

  ghost function Docs(m: map<string, Mapping>): map<string, MappingDoc>
    reads m.Values
  {
    map a | a in m :: EntryDoc(m[a].Entry())
  }

  /** No two aliases share a mapping object. */
  ghost predicate Separate(m: map<string, Mapping?>) {
    forall a, b :: a in m && b in m && a != b && m[a] != null ==> m[a] != m[b]
  }

  ghost predicate AllSeparate(users: map<string, User>)
    reads users.Values
  {
    forall l {:trigger users[l]} :: l in users ==> Separate(users[l].mapping)
  }

  class Group {
    var mapping: map<string, Mapping?>
    var filter: Filter

    constructor (mapping: map<string, Mapping?>, filter: Filter)
      ensures this.mapping == mapping && this.filter == filter
    {
      this.mapping, this.filter := mapping, filter;
    }

    ghost function State(): GroupState
      reads this, mapping.Values
    {
      GroupState(map a | a in mapping :: if mapping[a] == null then None else Some(mapping[a].Entry()), filter)
    }

    /** What JSON carries of the group. */
    function Encode(): (doc: GroupDoc)
      reads this, mapping.Values
      ensures doc == GroupDocOf(State())
    {
      GroupDoc(
        map a | a in mapping ::
          if mapping[a] == null then None else Some(MappingDoc(mapping[a].path, mapping[a].mode)),
        filter.doc)
    }
  }

  class User {
    var storedPassword: Bytes
    var storedPubKey: Bytes
    var maxSessions: int
    var groups: string
    var filter: Filter
    var own: map<string, Mapping>
    var login: string
    var password: Bytes
    var pubkey: Bytes
    var mapping: map<string, Mapping>

    /** A decoded user: the exported fields of the document, the others zero. */
    constructor (doc: UserDoc, own: map<string, Mapping>)
      requires Docs(own) == doc.mapping
      ensures State() == DecodedUser(doc) && this.own == own && mapping == map[]
    {
      storedPassword, storedPubKey := doc.password, doc.pubkey;
      maxSessions, groups := doc.maxSessions, doc.groups;
      filter := Filter(doc.filter, [], []);
      this.own := own;
      login, password, pubkey, mapping := "", [], [], map[];
    }

    /** A shallow copy: both maps and everything in them are shared. */
    constructor Copy(u: User)
      ensures State() == u.State() && own == u.own && mapping == u.mapping
    {
      storedPassword, storedPubKey := u.storedPassword, u.storedPubKey;
      maxSessions, groups, filter, own := u.maxSessions, u.groups, u.filter, u.own;
      login, password, pubkey, mapping := u.login, u.password, u.pubkey, u.mapping;
    }

    method SetCredentials(storedPassword: Bytes, password: Bytes, storedPubKey: Bytes, pubkey: Bytes)
      modifies this
      ensures State() == old(State()).(storedPassword := storedPassword, password := password,
                                       storedPubKey := storedPubKey, pubkey := pubkey)
      ensures own == old(own) && mapping == old(mapping)
    {
      ghost var docs, entries := Docs(own), Entries(mapping);
      this.storedPassword, this.password := storedPassword, password;
      this.storedPubKey, this.pubkey := storedPubKey, pubkey;
      assert Docs(own) == docs && Entries(mapping) == entries;
    }

    method SetUp(login: string, filter: Filter, mapping: map<string, Mapping>)
      modifies this
      ensures State() == old(State()).(login := login, filter := filter, mapping := Entries(mapping))
      ensures own == old(own) && this.mapping == mapping
    {
      this.login, this.filter, this.mapping := login, filter, mapping;
    }

    ghost function State(): UserState
      reads this, own.Values, mapping.Values
    {
      UserState(storedPassword, storedPubKey, maxSessions, groups, filter, Docs(own),
                login, password, pubkey, Entries(mapping))
    }

    /** What JSON carries of the user: not the runtime fields. */
    function Encode(): (doc: UserDoc)
      reads this, own.Values, mapping.Values
      ensures doc == UserDocOf(State())
    {
      UserDoc(storedPassword, storedPubKey, maxSessions, groups, filter.doc,
              map a | a in own :: MappingDoc(own[a].path, own[a].mode))
    }
  }

  function DecodedUser(doc: UserDoc): UserState {
    UserState(doc.password, doc.pubkey, doc.maxSessions, doc.groups, Filter(doc.filter, [], []), doc.mapping,
              "", [], [], map[])
  }

  function DecodedGroup(doc: GroupDoc): GroupState {
    GroupState(
      map a | a in doc.mapping ::
        if doc.mapping[a].None? then None
        else Some(MapEntry(doc.mapping[a].value.path, doc.mapping[a].value.mode, null)),
      Filter(doc.filter, [], []))
  }

  class Config {
    var addr: string
    var http: HttpState
    var uid: nat
    var gid: nat
    var storedHostKey: Bytes
    var hostKey: Bytes
    var groups: map<string, Group>
    var users: map<string, User>

    constructor (doc: ConfigDoc, http: HttpState, storedHostKey: Bytes, hostKey: Bytes,
                 groups: map<string, Group>, users: map<string, User>)
      ensures addr == doc.addr && this.http == http && uid == doc.uid && gid == doc.gid
      ensures this.storedHostKey == storedHostKey && this.hostKey == hostKey
      ensures this.groups == groups && this.users == users
    {
      addr, this.http, uid, gid := doc.addr, http, doc.uid, doc.gid;
      this.storedHostKey, this.hostKey := storedHostKey, hostKey;
      this.groups, this.users := groups, users;
    }

    /** The mapping objects of the groups and the users. */
    ghost function Mappings(): set<Mapping?>
      reads this, groups.Values, users.Values
    {
      (set g, m | g in groups.Values && m in g.mapping.Values :: m)
      + (set u, m | u in users.Values && m in u.own.Values :: m)
      + (set u, m | u in users.Values && m in u.mapping.Values :: m)
    }

    ghost function State(): ConfigState
      reads this, groups.Values, users.Values, Mappings()
    {
      ConfigState(addr, http, uid, gid, storedHostKey, hostKey, GroupStates(groups), UserStates(users))
    }

    /** The document that the JSON encoder writes. */
    function Encode(): (doc: ConfigDoc)
      reads this, groups.Values, users.Values, Mappings()
      ensures doc == DocOf(State())
    {
      ConfigDoc(
        addr, HttpDoc(http.addr, http.storedUrl, http.storedUsername, http.storedPassword, http.filter.doc),
        uid, gid, storedHostKey,
        map g | g in groups :: groups[g].Encode(),
        map l | l in users :: users[l].Encode())
    }

    method SetHttp(http: HttpState)
      modifies this`http
      ensures this.http == http && State() == old(State()).(http := http)
    {
      this.http := http;
    }

    method SetHostKey(stored: Bytes)
      modifies this`storedHostKey
      ensures State() == old(State()).(storedHostKey := stored)
    {
      storedHostKey := stored;
    }

    /** What ExportConfig does to the secrets of the config. */
    method ExposeSecrets(c: Primitives, ghost s: ConfigState)
      requires State() == s && Decrypt(c, http.storedUsername) != Panic
      modifies `storedHostKey, `http
      ensures State() == WithSecrets(c, s)
    {
      if hostKey != [] {
        SetHostKey(hostKey);
      }
      if http.url != [] {
        SetHttp(http.(storedUrl := http.url));
      }
      if http.storedUsername != [] {
        match Decrypt(c, http.storedUsername) {
          case Ok(v) => SetHttp(http.(storedUsername := v));
          case Err => SetHttp(http.(storedUsername := []));
        }
      }
      SetHttp(http.(storedPassword := []));
    }

    /** Puts a copy without credentials in every user's place, in the config itself. */
    method BlankUsers(ghost s: ConfigState)
      requires State() == s
      modifies this`users
      ensures State() == WithoutCredentials(s)
      ensures forall l {:trigger users[l]} :: l in users ==>
                && l in old(users) && fresh(users[l])
                && users[l].own == old(users[l].own) && users[l].mapping == old(users[l].mapping)
    {
      var copies := BlankedUsers(s);
      SetUsers(copies, s, WithoutCredentials(s).users);
    }

    method BlankedUsers(ghost s: ConfigState) returns (copies: map<string, User>)
      requires State() == s
      ensures GroupStates(groups) == s.groups && UserStates(copies) == WithoutCredentials(s).users
      ensures copies.Keys == users.Keys
      ensures forall l {:trigger copies[l]} :: l in copies ==>
                fresh(copies[l]) && copies[l].own == users[l].own && copies[l].mapping == users[l].mapping
    {
      copies := CopyUsers(users, s.users);
      BlankStates(copies, users, s.users);
    }

    method SetUsers(users: map<string, User>, ghost s: ConfigState, ghost states: map<string, UserState>)
      requires GroupStates(groups) == s.groups && UserStates(users) == states
      requires s == ConfigState(addr, http, uid, gid, storedHostKey, hostKey, s.groups, s.users)
      modifies this`users
      ensures this.users == users && State() == s.(users := states)
    {
      this.users := users;
    }
  }

  function WithoutCredentials(cfg: ConfigState): ConfigState {
    cfg.(users := map l | l in cfg.users :: Blanked(cfg.users[l]))
  }

  function WithSecrets(c: Primitives, cfg: ConfigState): ConfigState {
    Exported(c, cfg).(users := cfg.users)
  }

  /** The user table with a copy without credentials in every user's place. */
  method CopyUsers(users: map<string, User>, ghost states: map<string, UserState>) returns (copies: map<string, User>)
    requires UserStates(users) == states
    ensures copies.Keys == users.Keys
    ensures forall l {:trigger copies[l]} :: l in copies ==>
              fresh(copies[l]) && BlankCopy(copies[l], users[l], states[l])
  {
    copies := users;
    var todo := users.Keys;
    while todo != {}
      invariant todo <= users.Keys == copies.Keys && UserStates(users) == states
      invariant forall l :: l in todo ==> copies[l] == users[l]
      invariant forall l {:trigger copies[l]} :: l in copies && l !in todo ==>
                  fresh(copies[l]) && BlankCopy(copies[l], users[l], states[l])
    {
      var login :| login in todo;
      todo := todo - {login};
      assert users[login].State() == states[login];
      var u := BlankedCopy(users[login]);
      assert UserStates(users) == states;
      copies := copies[login := u];
    }
  }

  ghost predicate BlankCopy(u: User, v: User, s: UserState)
    reads u, v, u.own.Values, u.mapping.Values
  {
    && u.storedPassword == [] && u.storedPubKey == []
    && u.password == v.password && u.pubkey == v.pubkey && u.login == v.login
    && u.maxSessions == v.maxSessions && u.groups == v.groups && u.filter == v.filter
    && u.own == v.own && u.mapping == v.mapping
    && u.State() == Blanked(s)
  }

  /** `u := *user` with both stored credentials cleared. */
  method BlankedCopy(user: User) returns (u: User)
    ensures fresh(u) && BlankCopy(u, user, user.State())
  {
    u := new User.Copy(user);
    u.SetCredentials([], u.password, [], u.pubkey);
  }

  lemma BlankStates(users: map<string, User>, before: map<string, User>, states: map<string, UserState>)
    requires users.Keys == before.Keys == states.Keys
    requires forall l :: l in users ==> BlankCopy(users[l], before[l], states[l])
    ensures UserStates(users) == map l | l in states :: Blanked(states[l])
  {
  }

  ghost function GroupStates(groups: map<string, Group>): map<string, GroupState>
    reads groups.Values, set g, m | g in groups.Values && m in g.mapping.Values :: m
  {
    map g | g in groups :: groups[g].State()
  }

  /** The group objects are in the given states. */
  ghost predicate Reflects(groups: map<string, Group>, states: map<string, GroupState>)
    reads groups.Values, set g, m | g in groups.Values && m in g.mapping.Values :: m
  {
    groups.Keys == states.Keys && forall g :: g in groups ==> groups[g].State() == states[g]
  }

  ghost function UserStates(users: map<string, User>): map<string, UserState>
    reads users.Values
    reads set u, m | u in users.Values && m in u.own.Values :: m
    reads set u, m | u in users.Values && m in u.mapping.Values :: m
  {
    map l | l in users :: users[l].State()
  }

  // ---------------------------------------------------------------- decoding

  method DecodeMapping(docs: map<string, Option<MappingDoc>>) returns (m: map<string, Mapping?>)
    ensures m.Keys == docs.Keys && Separate(m)
    ensures forall a :: a in docs ==>
              if docs[a].None? then m[a] == null
              else m[a] != null && fresh(m[a]) &&
                   m[a].Entry() == MapEntry(docs[a].value.path, docs[a].value.mode, null)
  {
    m := map[];
    var todo := docs.Keys;
    while todo != {}
      invariant todo <= docs.Keys && m.Keys == docs.Keys - todo && Separate(m)
      invariant forall a :: a in m ==>
                  if docs[a].None? then m[a] == null
                  else m[a] != null && fresh(m[a]) &&
                       m[a].Entry() == MapEntry(docs[a].value.path, docs[a].value.mode, null)
    {
      var a :| a in todo;
      todo := todo - {a};
      if docs[a].None? {
        m := m[a := null];
      } else {
        var x := new Mapping(docs[a].value.path, docs[a].value.mode);
        m := m[a := x];
      }
    }
  }

  method DecodeOwn(docs: map<string, MappingDoc>) returns (m: map<string, Mapping>)
    ensures Docs(m) == docs && forall a :: a in m ==> fresh(m[a]) && m[a].root == null
  {
    m := map[];
    var todo := docs.Keys;
    while todo != {}
      invariant todo <= docs.Keys && m.Keys == docs.Keys - todo
      invariant forall a :: a in m ==> fresh(m[a]) && m[a].Entry() == MapEntry(docs[a].path, docs[a].mode, null)
    {
      var a :| a in todo;
      todo := todo - {a};
      var x := new Mapping(docs[a].path, docs[a].mode);
      m := m[a := x];
    }
  }
}
