/**
  The server object of internal/types.go with the methods of internal/config.go and
  internal/http.go that change it, each proved against ConfigSpec.
  */
module Server {
  import opened Wrappers
  import opened Cipher
  import opened IpFilter
  import opened FilterLists
  import opened ConfigModel
  import opened ConfigSpec
  import opened ConfigTheorems
  import opened ConfigRuns
  import opened ExportEffects
  import opened ServerObjects
  import opened Loading
  import opened Users
  import opened UserTable
  import opened Sessions

  /** The config file: what it decodes to. */
  class ConfigFile {
    var content: Option<ConfigDoc>

    constructor (content: Option<ConfigDoc>)
      ensures this.content == content
    {
      this.content := content;
    }

    method Write(doc: ConfigDoc)
      modifies this
      ensures content == Some(doc)
    {
      content := Some(doc);
    }
  }

  class SFTPD {
    const env: Env
    const table: SessionTable
    var config: Config?
    var userPubKeyMap: map<string, User>
    const file: ConfigFile

    constructor (env: Env, table: SessionTable, file: ConfigFile)
      requires env.Lawful()
      ensures Valid() && config == null && this.env == env && this.table == table && this.file == file
    {
      this.env, this.table, this.file := env, table, file;
      config, userPubKeyMap := null, map[];
    }

    ghost function State(): ServerState
      reads this`config, this`userPubKeyMap, config
      reads if config == null then {} else config.groups.Values
      reads if config == null then {} else config.users.Values
      reads if config == null then {} else config.Mappings()
      reads userPubKeyMap.Values
    {
      ServerState(StateOf(config), Logins(userPubKeyMap))
    }

    ghost predicate Valid()
      reads this`config, this`userPubKeyMap, config
      reads if config == null then {} else config.groups.Values
      reads if config == null then {} else config.users.Values
      reads if config == null then {} else config.Mappings()
      reads userPubKeyMap.Values
    {
      env.Lawful() && StateInv(env, State())
    }

    /** The three web secrets of the document, with the old values to fall back to. */
    method LoadHttp(doc: HttpDoc) returns (h: HttpState)
      requires Decrypt(env.cipher, doc.url) != Panic
      requires Decrypt(env.cipher, doc.username) != Panic
      requires Decrypt(env.cipher, doc.password) != Panic
      ensures HttpLoaded(env, doc, if config == null then None else Some(config.http), h)
    {
      var oldUsername, oldPassword, oldUrl := [], [], [];
      if config != null {
        oldUsername, oldPassword, oldUrl := config.http.username, config.http.password, config.http.url;
      }
      var storedUsername, username := ProcessSecureField(env.cipher, doc.username, [], oldUsername);
      var storedPassword, password := ProcessSecureField(env.cipher, doc.password, [], oldPassword);
      var storedUrl, url := ProcessSecureField(env.cipher, doc.url, [], oldUrl);
      var filter := ParseFilter(env.parser, Filter(doc.filter, [], []));
      h := HttpState(doc.addr, storedUrl, url, storedUsername, username, storedPassword, password, "", filter);
    }

    /** The tables of the new config, made of new objects only. */
    method LoadTables(doc: ConfigDoc, ghost s: ServerState)
      returns (groups: map<string, Group>, users: map<string, User>, index: map<string, User>,
               ghost states: map<string, GroupState>, ghost loaded: map<string, UserState>)
      requires env.Lawful() && LoadSafe(env, s, doc) && OldMatches(config, s.config)
      ensures TablesLoaded(env, s, doc, states, loaded, Logins(index))
      ensures GroupStates(groups) == states && UserStates(users) == loaded && AllSeparate(users)
    {
      ghost var logins;
      groups, states := LoadGroups(env, doc.groups);
      AllAreReady(env, s, doc, states);
      users, index, loaded, logins := LoadUsers(env, config, doc.users, groups, s.config, doc.groups, states);
      StatesOf(groups, states, users, loaded);
    }

    /** Decodes the document into new objects and processes them; nothing of the live config changes. */
    method BuildConfig(doc: ConfigDoc) returns (cfg: Config, index: map<string, User>, ghost s': ServerState)
      requires Valid() && LoadSafe(env, State(), doc)
      ensures fresh(cfg) && AllSeparate(cfg.users) && s' == ServerState(Some(cfg.State()), Logins(index))
      ensures Loaded(env, old(State()), doc, s')
    {
      ghost var s := State();
      StateMatches(config);
      var http := LoadHttp(doc.http);
      var storedHostKey, hostKey := ProcessSecureField(env.cipher, doc.hostKey, [], []);
      var groups, users;
      ghost var states, loaded;
      groups, users, index, states, loaded := LoadTables(doc, s);
      ghost var logins := Logins(index);
      cfg := Assemble(doc, http, storedHostKey, hostKey, groups, users, states, loaded);
      s' := ServerState(Some(cfg.State()), logins);
      Assembled(env, s, doc, s', states, loaded);
    }

    /**
      LoadConfig. A document that does not decode changes nothing; otherwise config and index are
      replaced, the new config is saved, and every connection of the session table is closed, all of
      it before another holder of the mutex sees anything.
      */
    method LoadConfig(reader: Option<ConfigDoc>) returns (ok: bool)
      requires Valid() && (reader.Some? ==> LoadSafe(env, State(), reader.value))
      modifies this, table`open, file
      ensures Valid() && ok == reader.Some?
      ensures !ok ==> State() == old(State()) && config == old(config) && file.content == old(file.content)
      ensures !ok ==> table.open == old(table.open)
      ensures ok ==> config != null && fresh(config) && AllSeparate(config.users)
      ensures ok ==> Loaded(env, old(State()), reader.value, State())
      ensures ok ==> file.content == Some(DocOf(State().config.value))
      ensures ok ==> table.open == old(table.open) - AllConns(table.sessions)
      ensures Protocol() == if ok then Sessions.Next(old(Protocol()), Sessions.Reload(LimitsOf(State())))
                            else old(Protocol())
    {
      ok := reader.Some?;
      if ok {
        ghost var s, s', limits := State(), State(), Limits();
        var cfg, index;
        cfg, index, s' := BuildConfig(reader.value);
        LoadKeepsInv(env, s, reader.value, s');
        Install(cfg, index, s', limits);
      }
    }

    method Install(cfg: Config, index: map<string, User>, ghost s': ServerState, ghost limits: map<string, int>)
      requires s' == ServerState(Some(cfg.State()), Logins(index)) && AllSeparate(cfg.users)
      modifies this`config, this`userPubKeyMap, file, table`open
      ensures config == cfg && State() == s' && AllSeparate(cfg.users)
      ensures file.content == Some(DocOf(s'.config.value))
      ensures table.open == old(table.open) - AllConns(table.sessions)
      ensures Protocol() == Sessions.Next(old(table.View(limits)), Sessions.Reload(LimitsOf(s')))
    {
      Swap(cfg, index, s');
      SaveConfig(s');
      CloseSessions(s', limits);
      LimitsAre(config, s');
    }

    method Swap(cfg: Config, index: map<string, User>, ghost s': ServerState)
      requires s' == ServerState(Some(cfg.State()), Logins(index))
      modifies this`config, this`userPubKeyMap
      ensures config == cfg && userPubKeyMap == index && State() == s'
    {
      config, userPubKeyMap := cfg, index;
      assert cfg.State() == s'.config.value;
    }

    /** saveConfig: the document of the current config becomes the content of the file. */
    method SaveConfig(ghost s: ServerState)
      requires config != null && State() == s
      modifies file
      ensures State() == s && file.content == Some(DocOf(s.config.value))
    {
      WriteFile(config.Encode(), s);
    }

    method WriteFile(doc: ConfigDoc, ghost s: ServerState)
      requires State() == s
      modifies file
      ensures State() == s && file.content == Some(doc)
    {
      file.Write(doc);
    }

    method CloseSessions(ghost s: ServerState, ghost limits: map<string, int>)
      requires State() == s
      modifies table`open
      ensures State() == s && table.open == old(table.open) - AllConns(table.sessions)
      ensures table.View(LimitsOf(s)) == Sessions.Next(old(table.View(limits)), Sessions.Reload(LimitsOf(s)))
    {
      table.CloseAll(limits, LimitsOf(s));
    }

    /**
      ExportConfig. It works on the live config: afterwards the table holds copies of the users
      without credentials, which share the maps of the users they replace, while the index still
      leads to the replaced objects.
      */
    method ExportConfig() returns (doc: ConfigDoc)
      requires Valid() && config != null && ExportSafe(env, State())
      modifies config
      ensures State() == ExportedState(env, old(State()))
      ensures Valid() && doc == DocOf(State().config.value)
      ensures Protocol() == old(Protocol())
      ensures forall l {:trigger config.users[l]} :: l in config.users ==>
                && l in old(config.users) && fresh(config.users[l])
                && config.users[l].own == old(config.users[l].own)
                && config.users[l].mapping == old(config.users[l].mapping)
      ensures forall fp, l :: fp in userPubKeyMap && l in config.users ==> userPubKeyMap[fp] != config.users[l]
    {
      ghost var s := State();
      ExportKeepsInv(env, s);
      LimitsAre(config, s);
      BlankUsers(s);
      ExposeSecrets(s.(config := Some(WithoutCredentials(s.config.value))));
      doc := config.Encode();
      LimitsAre(config, ExportedState(env, s));
      LimitsKept(env, s);
    }

    /** Puts a copy without credentials in every user's place. */
    method BlankUsers(ghost s: ServerState)
      requires config != null && State() == s
      modifies config`users
      ensures State() == s.(config := Some(WithoutCredentials(s.config.value)))
      ensures forall l {:trigger config.users[l]} :: l in config.users ==>
                && l in old(config.users) && fresh(config.users[l])
                && config.users[l].own == old(config.users[l].own)
                && config.users[l].mapping == old(config.users[l].mapping)
    {
      config.BlankUsers(s.config.value);
    }

    /** Puts the decrypted secrets in the stored fields, but not the web password. */
    method ExposeSecrets(ghost s: ServerState)
      requires config != null && State() == s && Decrypt(env.cipher, s.config.value.http.storedUsername) != Panic
      modifies config`storedHostKey, config`http
      ensures State() == s.(config := Some(WithSecrets(env.cipher, s.config.value)))
    {
      config.ExposeSecrets(env.cipher, s.config.value);
    }

    // ---------------------------------------------------------------- authentication

    method GetUserByPassword(login: string, password: Bytes) returns (user: User?)
      requires config != null
      ensures user != null <==>
                && login in config.users
                && config.users[login].password != [] && config.users[login].password == password
      ensures PasswordLogin(State(), login, password) == if user == null then None else Some(user.login)
      ensures user != null ==> login in config.users && user == config.users[login]
    {
      if login !in config.users || config.users[login].password == [] || config.users[login].password != password {
        return null;
      }
      user := config.users[login];
    }

    method GetUserByLogin(login: string) returns (user: User?)
      requires config != null
      ensures State().User(login) == if user == null then None else Some(user.State())
      ensures user != null ==> login in config.users && user == config.users[login]
    {
      user := if login in config.users then config.users[login] else null;
    }

    method GetUserByPublicKey(fp: string) returns (user: User?)
      ensures KeyLogin(State(), fp) == if user == null then None else Some(user.login)
    {
      user := if fp in userPubKeyMap then userPubKeyMap[fp] else null;
    }

    // ---------------------------------------------------------------- web administration

    method IsValidToken(token: string) returns (ok: bool)
      requires config != null
      ensures ok == ValidToken(State(), token)
    {
      ok := token != "" && config.http.token == token;
    }

    method IsIPAllowed(ip: Address) returns (ok: bool)
      requires config != null
      ensures ok == Verdict(config.http.filter.whitelist, config.http.filter.blacklist, ip)
    {
      ok := Allowed(config.http.filter.whitelist, config.http.filter.blacklist, ip);
    }

    method SetToken(token: string, ghost s: ServerState)
      requires config != null && State() == s
      modifies config`http
      ensures State() == WithToken(s, token)
    {
      config.SetHttp(config.http.(token := token));
    }

    /** A login request: from an unknown or forbidden address, or one that is no JSON POST, it is refused. */
    method HandleLogin(ip: Option<Address>, request: Option<(Bytes, Bytes)>, issued: string) returns (ok: bool)
      requires Valid() && config != null
      modifies config`http
      ensures Valid()
      ensures var http := old(config.http);
              ok <==> && ip.Some? && Verdict(http.filter.whitelist, http.filter.blacklist, ip.value)
                      && request.Some? && request.value == (http.username, http.password)
      ensures if MayLogin(old(config.http.filter), ip) && request.Some?
              then var op := Login(request.value.0, request.value.1, issued);
                   Step(env, old(State()), op, State()) && ok == GoodLogin(old(State()), op)
              else !ok && State() == old(State())
    {
      ghost var s := State();
      ok := CheckLogin(ip, request, s);
      if ok {
        SetToken(issued, s);
      }
    }

    method CheckLogin(ip: Option<Address>, request: Option<(Bytes, Bytes)>, ghost s: ServerState) returns (ok: bool)
      requires config != null && State() == s
      ensures State() == s
      ensures ok <==> && MayLogin(config.http.filter, ip) && request.Some?
                      && request.value == (config.http.username, config.http.password)
    {
      if ip.None? {
        return false;
      }
      var allowed := IsIPAllowed(ip.value);
      if !allowed || request.None? {
        return false;
      }
      var (username, password) := request.value;
      ok := username == config.http.username && password == config.http.password;
    }

    method HandleLogout()
      requires Valid() && config != null
      modifies config`http
      ensures Valid() && Step(env, old(State()), Logout, State())
    {
      SetToken("", State());
    }

    /** The last step of a config POST: whatever the token has become, it is again the one that was read. */
    method RestoreToken(token: string)
      requires Valid() && config != null
      modifies config`http
      ensures Valid() && State() == WithToken(old(State()), token)
    {
      SetToken(token, State());
    }

    /** A config POST that nothing comes between: the token outlives the load, which replaces the config it was in. */
    method HandleConfigPost(body: Option<ConfigDoc>) returns (ok: bool)
      requires Valid() && config != null && (body.Some? ==> LoadSafe(env, State(), body.value))
      modifies this, table`open, file
      ensures Valid() && config != null && Step(env, old(State()), Post(body), State())
    {
      ghost var s := State();
      var currentToken := config.http.token;
      if body.None? {
        return false;
      }
      ok := LoadConfig(body);
      ghost var s' := State();
      RestoreToken(currentToken);
      PostStep(env, s, body.value, s', currentToken);
    }

    /**
      The web page gets the config and posts it back unedited. Nobody's credentials come to be
      accepted or refused that were not before, nor does the administrator lose the session.
      */
    method ExportAndImport()
      requires Valid() && config != null && ExportSafe(env, State())
      requires LoadSafe(env, ExportedState(env, State()), DocOf(Exported(env.cipher, State().config.value)))
      requires KeysFit(State().Users()) && DistinctKeys(env, State().Users())
      modifies this, config, table`open, file
      ensures Valid() && config != null && SameVerdicts(old(State()), State())
      ensures Token(State()) == Token(old(State()))
    {
      ghost var s := State();
      var doc := ExportConfig();
      ghost var x := State();
      var ok := HandleConfigPost(Some(doc));
      ExportThenImport(env, s, x, doc, State());
    }

    /** SIGHUP: a load from the config file, whatever it holds by now. */
    method HandleHangup(content: Option<ConfigDoc>)
      requires Valid() && config != null && (content.Some? ==> LoadSafe(env, State(), content.value))
      modifies this, table`open, file
      ensures Valid() && config != null && Step(env, old(State()), Op.Reload(content), State())
    {
      var _ := LoadConfig(content);
    }

    // ---------------------------------------------------------------- sessions

    /** MaxSessions of the users of the current config. */
    ghost function Limits(): map<string, int>
      reads this`config, config
      reads if config == null then {} else config.users.Values
    {
      if config == null then map[] else map l | l in config.users :: config.users[l].maxSessions
    }

    /** The state of the session protocol that the server is in. */
    ghost function Protocol(): Sessions.State
      reads this`config, config, table
      reads if config == null then {} else config.users.Values
    {
      table.View(Limits())
    }

    /** AddSession dereferences the login's user, so the current config has to have it. */
    method AddSession(login: string, ip: string, conn: Conn) returns (ok: bool)
      requires config != null && login in config.users && NoEmptyLogin(table.sessions)
      modifies table`sessions, table`handlers
      ensures var limit := config.users[login].maxSessions;
              ok <==> limit <= 0 || login !in old(table.sessions) || |old(table.sessions)[login]| < limit
      ensures table.sessions == if ok then Added(old(table.sessions), login, conn, ip) else old(table.sessions)
      ensures NoEmptyLogin(table.sessions)
      ensures Protocol() == Sessions.Next(old(Protocol()), Add(login, conn, ip))
    {
      ok := table.AddSession(login, config.users[login].maxSessions, ip, conn, Limits());
    }

    method DeleteSession(login: string, conn: Conn)
      requires NoEmptyLogin(table.sessions)
      modifies table`sessions, table`handlers, table`closing
      ensures NoEmptyLogin(table.sessions)
      ensures Protocol() == Sessions.Next(old(Protocol()), Delete(login, conn))
    {
      table.DeleteSession(login, conn, Limits());
    }

    method DropLogin(login: string)
      requires NoEmptyLogin(table.sessions)
      modifies table`sessions, table`closing
      ensures NoEmptyLogin(table.sessions)
      ensures Protocol() == Sessions.Next(old(Protocol()), Drop(login))
    {
      table.DropLogin(login, Limits());
    }

    /** The login is in the config, and its filter lets the address in. */
    method LetsIn(login: string, addr: Address) returns (ok: bool)
      requires config != null
      ensures ok <==>
                && login in config.users
                && Verdict(config.users[login].filter.whitelist, config.users[login].filter.blacklist, addr)
    {
      var user := GetUserByLogin(login);
      ok := user != null;
      if ok {
        ok := Allowed(user.filter.whitelist, user.filter.blacklist, addr);
      }
    }

    /**
      How handleConn admits an authenticated connection, if nothing comes in between: the login has to
      be in the config, its filter to let the address in, and a session to be free. A connection that
      is refused is closed.
      */
    method Admit(login: string, addr: Address, ip: string, conn: Conn) returns (ok: bool)
      requires config != null && NoEmptyLogin(table.sessions)
      modifies table
      ensures ok <==>
                && login in config.users
                && Verdict(config.users[login].filter.whitelist, config.users[login].filter.blacklist, addr)
                && var limit := config.users[login].maxSessions;
                   limit <= 0 || login !in old(table.sessions) || |old(table.sessions)[login]| < limit
      ensures table.sessions == if ok then Added(old(table.sessions), login, conn, ip) else old(table.sessions)
      ensures table.open == if ok then old(table.open) else old(table.open) - {conn}
      ensures table.closing == old(table.closing) && NoEmptyLogin(table.sessions)
    {
      ok := LetsIn(login, addr);
      if ok {
        var limit := config.users[login].maxSessions;
        ok := table.AddSession(login, limit, ip, conn, map[login := limit]);
      }
      if !ok {
        table.Close(conn);
      }
    }
  }

  /** MaxSessions of every user. */
  function LimitsOf(s: ServerState): map<string, int> {
    map l | l in s.Users() :: s.Users()[l].maxSessions
  }

  lemma LimitsAre(config: Config, s: ServerState)
    requires s.config.Some? && s.config.value == config.State()
    ensures LimitsOf(s) == map l | l in config.users :: config.users[l].maxSessions
  {
    assert forall l :: l in config.users ==> s.Users()[l] == config.users[l].State();
  }

  lemma LimitsKept(env: Env, s: ServerState)
    requires ExportSafe(env, s)
    ensures LimitsOf(ExportedState(env, s)) == LimitsOf(s)
  {
    ExportOutcome(env, s);
    assert forall l :: l in s.Users() ==> OnlyStoredLost(s.Users()[l], ExportedState(env, s).Users()[l]);
  }

  lemma PostStep(env: Env, s: ServerState, doc: ConfigDoc, s': ServerState, token: string)
    requires s.config.Some? && LoadSafe(env, s, doc) && Loaded(env, s, doc, s') && token == Token(s)
    ensures Step(env, s, Post(Some(doc)), WithToken(s', token))
  {
    assert WithToken(WithToken(s', token), "") == s';
  }

  lemma ExportThenImport(env: Env, s: ServerState, x: ServerState, doc: ConfigDoc, s': ServerState)
    requires env.Lawful() && StateInv(env, s) && s.config.Some? && ExportSafe(env, s) && x == ExportedState(env, s)
    requires doc == DocOf(x.config.value) && Step(env, x, Post(Some(doc)), s')
    requires KeysFit(s.Users()) && DistinctKeys(env, s.Users())
    ensures SameVerdicts(s, s') && Token(s') == Token(s)
  {
    assert Exports(env, s, 0) == s;
    assert Exports(env, s, 1) == x;
    ImportStep(env, s, 1, x, Post(Some(doc)), s');
  }

  /** The web filter lets the address in; an address that was not found is out. */
  predicate MayLogin(f: Filter, ip: Option<Address>) {
    ip.Some? && Verdict(f.whitelist, f.blacklist, ip.value)
  }

  method Assemble(doc: ConfigDoc, http: HttpState, storedHostKey: Bytes, hostKey: Bytes,
                  groups: map<string, Group>, users: map<string, User>,
                  ghost states: map<string, GroupState>, ghost loaded: map<string, UserState>)
    returns (cfg: Config)
    requires GroupStates(groups) == states && UserStates(users) == loaded && AllSeparate(users)
    ensures fresh(cfg) && AllSeparate(cfg.users)
    ensures cfg.State() == ConfigState(doc.addr, http, doc.uid, doc.gid, storedHostKey, hostKey, states, loaded)
  {
    cfg := new Config(doc, http, storedHostKey, hostKey, groups, users);
  }

  /** The groups, users and index that a load of the document leads to. */
  ghost predicate TablesLoaded(env: Env, s: ServerState, doc: ConfigDoc, groups: map<string, GroupState>,
                               users: map<string, UserState>, index: map<string, string>)
  {
    && GroupsReady(env, doc.groups, groups)
    && users.Keys == doc.users.Keys && TablesAgree(env, groups, doc.users, s.config, users, index)
  }

  lemma AllLoadedMeans(env: Env, s: ServerState, doc: ConfigDoc,
                       groups: map<string, GroupState>, users: map<string, UserState>)
    requires users.Keys == doc.users.Keys && AllLoaded(env, groups, doc.users, s.config, users)
    ensures forall l :: l in doc.users ==> UserLoaded(env, groups, l, doc.users[l], s.User(l), users[l])
  {
    forall l | l in doc.users
      ensures UserLoaded(env, groups, l, doc.users[l], s.User(l), users[l])
    {
      assert s.User(l) == UserIn(s.config, l);
    }
  }

  lemma StatesOf(groups: map<string, Group>, states: map<string, GroupState>,
                 users: map<string, User>, loaded: map<string, UserState>)
    requires Reflects(groups, states) && AllBuilt(users, loaded)
    ensures GroupStates(groups) == states && UserStates(users) == loaded && AllSeparate(users)
  {
    assert GroupStates(groups).Keys == groups.Keys;
    assert UserStates(users).Keys == users.Keys;
  }

  lemma Assembled(env: Env, s: ServerState, doc: ConfigDoc, s': ServerState, states: map<string, GroupState>,
                  loaded: map<string, UserState>)
    requires TablesLoaded(env, s, doc, states, loaded, s'.index)
    requires s'.config.Some? && s'.config.value.groups == states && s'.config.value.users == loaded
    requires var cfg := s'.config.value;
             && cfg.addr == doc.addr && cfg.uid == doc.uid && cfg.gid == doc.gid
             && HttpLoaded(env, doc.http, OldHttp(s), cfg.http)
             && cfg.hostKey == SecureRuntime(env.cipher, doc.hostKey, [], [])
             && SecureStored(env.cipher, doc.hostKey, cfg.hostKey, cfg.storedHostKey)
    ensures Loaded(env, s, doc, s')
  {
    AllLoadedMeans(env, s, doc, states, loaded);
    assert forall g :: g in doc.groups ==> GroupLoaded(env, doc.groups[g], states[g]);
  }

  lemma AllAreReady(env: Env, s: ServerState, doc: ConfigDoc, states: map<string, GroupState>)
    requires LoadSafe(env, s, doc) && GroupsReady(env, doc.groups, states)
    ensures AllReady(env, doc.users, s.config, states)
  {
    forall l | l in doc.users
      ensures UserReady(env, doc.users[l], UserIn(s.config, l), states)
    {
      assert UserSafe(env, doc, doc.users[l], s.User(l));
      assert s.User(l) == UserIn(s.config, l);
      forall g | && !Skipped(doc.users[l], s.User(l))
                 && g in GroupNames(env.parser.trim, doc.users[l].groups) && g in states
        ensures Opened(states[g])
      {
        assert AllUsable(env, doc.groups[g]) && GroupLoaded(env, doc.groups[g], states[g]);
      }
    }
  }
}
