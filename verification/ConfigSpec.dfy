/**
  What LoadConfig and ExportConfig do to the server state, as relations and functions on values.
  A load draws nonces, opens directories and walks Go maps in any order, so it is a relation.
  */
module ConfigSpec {
  import opened Wrappers
  import opened Cipher
  import opened FilterLists
  import opened ConfigModel

  // ---------------------------------------------------------------- loading

  function ParsedFilter(p: EntryParser, d: FilterDoc): Filter {
    Filter(d, Parsed(p, d.whitelist), Parsed(p, d.blacklist))
  }

  /** An exec mapping needs no directory; any other one must be possible to open. */
  predicate Usable(env: Env, m: MappingDoc) {
    m.mode == Exec || env.canOpen(m.path)
  }

  /** The runtime entry of a written mapping: a handle on its path, except in exec mode. */
  predicate EntryOf(m: MappingDoc, e: MapEntry) {
    EntryDoc(e) == m && RootFits(e)
  }

  predicate RootFits(e: MapEntry) {
    && (e.root == null <==> e.mode == Exec)
    && (e.root != null ==> e.root.path == e.path)
  }

  /** A group mapping whose directory does not open is stored as null. */
  predicate GroupLoaded(env: Env, doc: GroupDoc, g: GroupState) {
    && g.filter == ParsedFilter(env.parser, doc.filter)
    && g.mapping.Keys == doc.mapping.Keys
    && forall a :: a in doc.mapping ==>
         doc.mapping[a].Some? &&
         if Usable(env, doc.mapping[a].value)
         then g.mapping[a].Some? && EntryOf(doc.mapping[a].value, g.mapping[a].value)
         else g.mapping[a].None?
  }

  /** Within one user no two aliases share a handle, and exactly the exec mappings have none. */
  predicate RootsOk(m: map<string, MapEntry>) {
    && (forall a :: a in m ==> RootFits(m[a]))
    && (forall a, b :: a in m && b in m && a != b && m[a].root != null ==> m[a].root != m[b].root)
  }

  /** The user's own mapping of the alias takes effect. */
  predicate OwnApplies(env: Env, own: map<string, MappingDoc>, a: string) {
    a in own && Usable(env, own[a])
  }

  ghost predicate MappingLoaded(env: Env, gs: seq<GroupState>, own: map<string, MappingDoc>, m: map<string, MapEntry>)
    requires forall i :: 0 <= i < |gs| ==> Opened(gs[i])
  {
    && (forall a :: a in m <==> OwnApplies(env, own, a) || a in MergeGroups(gs))
    && (forall a :: a in m ==>
          if OwnApplies(env, own, a) then EntryOf(own[a], m[a]) else m[a] == MergeGroups(gs)[a])
    && RootsOk(m)
  }

  function UserGroups(env: Env, groups: map<string, GroupState>, doc: UserDoc): seq<GroupState> {
    Known(groups, GroupNames(env.parser.trim, doc.groups))
  }

  ghost predicate CredentialsLoaded(c: Primitives, doc: UserDoc, prev: Option<UserState>, u: UserState) {
    && SourceStored(c, PasswordSource(doc, prev), u.storedPassword)
    && u.password == LoadedPassword(c, doc, prev)
    && SourceStored(c, PubKeySource(doc, prev), u.storedPubKey)
    && u.pubkey == LoadedPubKey(c, doc, prev)
  }

  /** A user that is set up: the filters of the groups merged in, and the mapping of the groups and its own. */
  ghost predicate SetUp(env: Env, gs: seq<GroupState>, login: string, doc: UserDoc, u: UserState) {
    && u.login == login
    && u.filter == Filter(doc.filter,
                          MergedAll(Parsed(env.parser, doc.filter.whitelist), Whitelists(gs)),
                          MergedAll(Parsed(env.parser, doc.filter.blacklist), Blacklists(gs)))
    && (forall i :: 0 <= i < |gs| ==> Opened(gs[i]))
    && MappingLoaded(env, gs, doc.mapping, u.mapping)
  }

  predicate NotSetUp(doc: UserDoc, u: UserState) {
    u.filter == Filter(doc.filter, [], []) && u.login == "" && u.mapping == map[]
  }

  /** What the user's fields have become, given the groups after loading and the login's old user. */
  ghost predicate UserLoaded(env: Env, groups: map<string, GroupState>, login: string,
                             doc: UserDoc, prev: Option<UserState>, u: UserState)
  {
    && CredentialsLoaded(env.cipher, doc, prev, u)
    && u.maxSessions == doc.maxSessions && u.groups == doc.groups && u.own == doc.mapping
    && if Skipped(doc, prev) then NotSetUp(doc, u) else SetUp(env, UserGroups(env, groups, doc), login, doc, u)
  }

  /** Each indexed fingerprint leads to a user with that key, and no user's key is missing. */
  ghost predicate IndexAgrees(env: Env, users: map<string, UserState>, index: map<string, string>) {
    && (forall fp :: fp in index ==>
          index[fp] in users && env.fingerprint(users[index[fp]].pubkey) == Some(fp))
    && (forall l :: l in users && env.fingerprint(users[l].pubkey).Some? ==>
          env.fingerprint(users[l].pubkey).value in index)
  }

  ghost predicate HttpLoaded(env: Env, doc: HttpDoc, prev: Option<HttpState>, h: HttpState) {
    var c := env.cipher;
    && h.addr == doc.addr && h.token == "" && h.filter == ParsedFilter(env.parser, doc.filter)
    && h.url == SecureRuntime(c, doc.url, [], if prev.Some? then prev.value.url else [])
    && SecureStored(c, doc.url, h.url, h.storedUrl)
    && h.username == SecureRuntime(c, doc.username, [], if prev.Some? then prev.value.username else [])
    && SecureStored(c, doc.username, h.username, h.storedUsername)
    && h.password == SecureRuntime(c, doc.password, [], if prev.Some? then prev.value.password else [])
    && SecureStored(c, doc.password, h.password, h.storedPassword)
  }

  function OldHttp(s: ServerState): Option<HttpState> {
    if s.config.Some? then Some(s.config.value.http) else None
  }

  /** A successful LoadConfig of `doc` takes the server from `s` to `s'`. */
  ghost predicate Loaded(env: Env, s: ServerState, doc: ConfigDoc, s': ServerState) {
    s'.config.Some? &&
    var cfg := s'.config.value;
    && cfg.addr == doc.addr && cfg.uid == doc.uid && cfg.gid == doc.gid
    && HttpLoaded(env, doc.http, OldHttp(s), cfg.http)
    && cfg.hostKey == SecureRuntime(env.cipher, doc.hostKey, [], [])
    && SecureStored(env.cipher, doc.hostKey, cfg.hostKey, cfg.storedHostKey)
    && cfg.groups.Keys == doc.groups.Keys
    && (forall g :: g in doc.groups ==> GroupLoaded(env, doc.groups[g], cfg.groups[g]))
    && cfg.users.Keys == doc.users.Keys
    && (forall l :: l in doc.users ==> UserLoaded(env, cfg.groups, l, doc.users[l], s.User(l), cfg.users[l]))
    && IndexAgrees(env, cfg.users, s'.index)
  }

  /** Neither credential of the user makes the codec panic. */
  predicate CredentialsSafe(c: Primitives, doc: UserDoc, prev: Option<UserState>) {
    && SourceOutcome(c, PasswordSource(doc, prev)) != Panic
    && SourceOutcome(c, PubKeySource(doc, prev)) != Panic
  }

  predicate NoNulls(doc: GroupDoc) {
    forall a :: a in doc.mapping ==> doc.mapping[a].Some?
  }

  predicate AllUsable(env: Env, doc: GroupDoc)
    requires NoNulls(doc)
  {
    forall a :: a in doc.mapping ==> Usable(env, doc.mapping[a].value)
  }

  /**
    LoadConfig does not panic: no secret's length wraps the uint16 slice bound, no group mapping is
    null in the document, and a user that is set up names no group with a mapping that fails to open.
    */
  predicate LoadSafe(env: Env, s: ServerState, doc: ConfigDoc) {
    && Decrypt(env.cipher, doc.http.url) != Panic
    && Decrypt(env.cipher, doc.http.username) != Panic
    && Decrypt(env.cipher, doc.http.password) != Panic
    && Decrypt(env.cipher, doc.hostKey) != Panic
    && (forall g :: g in doc.groups ==> NoNulls(doc.groups[g]))
    && (forall l :: l in doc.users ==> UserSafe(env, doc, doc.users[l], s.User(l)))
  }

  predicate UserSafe(env: Env, doc: ConfigDoc, u: UserDoc, prev: Option<UserState>)
    requires forall g :: g in doc.groups ==> NoNulls(doc.groups[g])
  {
    && CredentialsSafe(env.cipher, u, prev)
    && (!Skipped(u, prev) ==>
          forall g :: g in GroupNames(env.parser.trim, u.groups) && g in doc.groups ==>
            AllUsable(env, doc.groups[g]))
  }

  // ---------------------------------------------------------------- exporting

  function Blanked(u: UserState): UserState {
    u.(storedPassword := [], storedPubKey := [])
  }

  /** The user has lost its stored credentials, and nothing else. */
  predicate OnlyStoredLost(u: UserState, v: UserState) {
    && v.storedPassword == [] && v.storedPubKey == []
    && v.password == u.password && v.pubkey == u.pubkey && v.login == u.login
    && v.maxSessions == u.maxSessions && v.groups == u.groups && v.filter == u.filter
    && v.own == u.own && v.mapping == u.mapping
  }

  function ExportedUsername(c: Primitives, stored: Bytes): Bytes {
    match Decrypt(c, stored) case Ok(v) => v case _ => []
  }

  /** What ExportConfig leaves of the live config: it works on the live config itself. */
  function Exported(c: Primitives, cfg: ConfigState): ConfigState {
    cfg.(
      users := map l | l in cfg.users :: Blanked(cfg.users[l]),
      storedHostKey := if cfg.hostKey != [] then cfg.hostKey else cfg.storedHostKey,
      http := cfg.http.(
        storedUrl := if cfg.http.url != [] then cfg.http.url else cfg.http.storedUrl,
        storedUsername := ExportedUsername(c, cfg.http.storedUsername),
        storedPassword := []))
  }

  predicate ExportSafe(env: Env, s: ServerState) {
    s.config.Some? && Decrypt(env.cipher, s.config.value.http.storedUsername) != Panic
  }

  function ExportedState(env: Env, s: ServerState): ServerState
    requires s.config.Some?
  {
    s.(config := Some(Exported(env.cipher, s.config.value)))
  }

  // ---------------------------------------------------------------- authentication

  /** The login that getUserByPassword authenticates, if any. */
  function PasswordLogin(s: ServerState, login: string, password: Bytes): Option<string> {
    if login in s.Users() && s.Users()[login].password != [] && s.Users()[login].password == password
    then Some(s.Users()[login].login)
    else None
  }

  /** The login that getUserByPublicKey authenticates, if any. */
  function KeyLogin(s: ServerState, fp: string): Option<string> {
    if fp in s.index then Some(s.index[fp]) else None
  }

  /** Whoever is authenticated in one state is in the other, as the same login. */
  ghost predicate SameVerdicts(s: ServerState, s': ServerState) {
    && (forall l: string, p: Bytes :: PasswordLogin(s', l, p) == PasswordLogin(s, l, p))
    && (forall fp: string :: KeyLogin(s', fp) == KeyLogin(s, fp))
  }

  // ---------------------------------------------------------------- invariant

  predicate PasswordForm(c: Primitives, stored: Bytes, runtime: Bytes) {
    && |runtime| <= MAX_SECRET
    && (stored != [] ==>
          IsEncrypted(stored) &&
          match Decrypt(c, stored) case Ok(d) => runtime == d case Err => runtime == [] case Panic => false)
  }

  predicate PubKeyForm(c: Primitives, stored: Bytes, runtime: Bytes) {
    stored != [] ==>
      IsEncrypted(stored) &&
      match Decrypt(c, stored) case Ok(d) => runtime == d case Err => runtime == stored case Panic => false
  }

  /** What the stored form of a user's credentials says about the runtime form. */
  predicate UserInv(env: Env, login: string, u: UserState) {
    && PasswordForm(env.cipher, u.storedPassword, u.password)
    && PubKeyForm(env.cipher, u.storedPubKey, u.pubkey)
    && (u.login == login || (u.password == [] && u.pubkey == []))
    && RootsOk(u.mapping)
  }

  /** Decrypting the text changes nothing or fails. */
  predicate Inert(c: Primitives, t: Bytes) {
    Decrypt(c, t) == Err || Decrypt(c, t) == Ok(t)
  }

  /** A blank secure field has a stored form that decrypts to nothing. */
  predicate BlankForm(c: Primitives, stored: Bytes, runtime: Bytes) {
    runtime == [] ==> Decrypt(c, stored) == Ok([])
  }

  predicate UsernameForm(c: Primitives, stored: Bytes, runtime: Bytes) {
    0 < |runtime| <= MAX_SECRET && Inert(c, runtime) ==>
      stored == [] || stored == runtime || Decrypt(c, stored) == Ok(runtime)
  }

  /** The mappings that a group kept are usable. */
  predicate GroupInv(env: Env, g: GroupState) {
    forall a :: a in g.mapping && g.mapping[a].Some? ==> Usable(env, EntryDoc(g.mapping[a].value))
  }

  ghost predicate ConfigInv(env: Env, cfg: ConfigState) {
    && (forall g :: g in cfg.groups ==> GroupInv(env, cfg.groups[g]))
    && (forall l :: l in cfg.users ==> UserInv(env, l, cfg.users[l]))
    && BlankForm(env.cipher, cfg.storedHostKey, cfg.hostKey)
    && BlankForm(env.cipher, cfg.http.storedUrl, cfg.http.url)
    && BlankForm(env.cipher, cfg.http.storedUsername, cfg.http.username)
    && UsernameForm(env.cipher, cfg.http.storedUsername, cfg.http.username)
  }

  /** Holds of the server state after every load and export. */
  ghost predicate StateInv(env: Env, s: ServerState) {
    && IndexAgrees(env, s.Users(), s.index)
    && (s.config.Some? ==> ConfigInv(env, s.config.value))
  }

  // ---------------------------------------------------------------- runs

  /** What can happen to the server, one request after another. `None` is a document that does not decode. */
  datatype Op =
    | Reload(doc: Option<ConfigDoc>)
    | Post(doc: Option<ConfigDoc>)
    | Export
    | Login(username: Bytes, password: Bytes, issued: string)
    | Logout

  function Token(s: ServerState): string
    requires s.config.Some?
  {
    s.config.value.http.token
  }

  function WithToken(s: ServerState, token: string): ServerState
    requires s.config.Some?
  {
    s.(config := Some(s.config.value.(http := s.config.value.http.(token := token))))
  }

  predicate GoodLogin(s: ServerState, op: Op)
    requires s.config.Some?
  {
    op.Login? && op.username == s.config.value.http.username && op.password == s.config.value.http.password
  }

  /** One request takes a server that has a config from `s` to `s'`. */
  ghost predicate Step(env: Env, s: ServerState, op: Op, s': ServerState) {
    s.config.Some? && s'.config.Some? &&
    match op
    case Reload(d) =>
      if d.None? then s' == s else LoadSafe(env, s, d.value) && Loaded(env, s, d.value, s')
    case Post(d) =>
      if d.None? then s' == s
      else LoadSafe(env, s, d.value) && Loaded(env, s, d.value, WithToken(s', "")) && Token(s') == Token(s)
    case Export => ExportSafe(env, s) && s' == ExportedState(env, s)
    case Login(_, _, t) => s' == if GoodLogin(s, op) then WithToken(s, t) else s
    case Logout => s' == WithToken(s, "")
  }

  /** A run: the start-up load of a fresh server, then requests. */
  ghost predicate Run(env: Env, first: ConfigDoc, states: seq<ServerState>, ops: seq<Op>) {
    && |states| == |ops| + 1
    && LoadSafe(env, EMPTY, first) && Loaded(env, EMPTY, first, states[0])
    && Steps(env, states, ops)
  }

  ghost predicate Steps(env: Env, states: seq<ServerState>, ops: seq<Op>)
    requires |states| == |ops| + 1
  {
    forall i {:trigger StepsAt(env, states, ops, i)} :: 0 <= i < |ops| ==> StepsAt(env, states, ops, i)
  }

  ghost predicate StepsAt(env: Env, states: seq<ServerState>, ops: seq<Op>, i: nat)
    requires i < |ops| && |states| == |ops| + 1
  {
    Step(env, states[i], ops[i], states[i + 1])
  }

  const EMPTY := ServerState(None, map[])
}
