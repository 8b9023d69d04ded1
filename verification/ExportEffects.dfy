/** What an export does to the live config and says in its document, field by field, and what an import brings back. */
module ExportEffects {
  import opened Wrappers
  import opened Cipher
  import opened ConfigModel
  import opened ConfigSpec
  import opened ConfigTheorems
  import opened ConfigReload
  import opened ConfigRuns
  import opened Documents

  /** The live config after an export: what is written over, and what is as it was. */
  lemma ExportOutcome(env: Env, s: ServerState)
    requires ExportSafe(env, s)
    ensures var (x, c, d) := (ExportedState(env, s), s.config.value, ExportedState(env, s).config.value);
            && x.index == s.index
            && d.addr == c.addr && d.uid == c.uid && d.gid == c.gid && d.groups == c.groups && d.hostKey == c.hostKey
            && d.storedHostKey == (if c.hostKey == [] then c.storedHostKey else c.hostKey)
            && d.users.Keys == c.users.Keys && (forall l :: l in c.users ==> OnlyStoredLost(c.users[l], d.users[l]))
            && d.http.addr == c.http.addr && d.http.filter == c.http.filter && d.http.token == c.http.token
            && d.http.url == c.http.url && d.http.username == c.http.username && d.http.password == c.http.password
            && d.http.storedUrl == (if c.http.url == [] then c.http.storedUrl else c.http.url)
            && d.http.storedPassword == []
            && (Decrypt(env.cipher, c.http.storedUsername) == Err ==> d.http.storedUsername == [])
            && forall v :: Decrypt(env.cipher, c.http.storedUsername) == Ok(v) ==> d.http.storedUsername == v
  {
  }

  /** The document that is sent: no user's credentials and no web password, but the other secrets as they are in use. */
  lemma ExportedDocument(env: Env, s: ServerState)
    requires ExportSafe(env, s)
    ensures var (c, d) := (s.config.value, DocOf(ExportedState(env, s).config.value));
            && SameSettings(DocOf(c), d) && d.groups == DocOf(c).groups
            && (forall l :: l in d.users ==> d.users[l].password == [] && d.users[l].pubkey == [])
            && d.http.password == []
            && (c.http.url != [] ==> d.http.url == c.http.url) && (c.hostKey != [] ==> d.hostKey == c.hostKey)
            && (env.cipher.Lawful() && Encrypts(env.cipher, c.http.storedUsername, c.http.username) ==>
                  |c.http.username| <= 65533 ==> d.http.username == c.http.username)
  {
    ExportOutcome(env, s);
    var http := s.config.value.http;
    if env.cipher.Lawful() && Encrypts(env.cipher, http.storedUsername, http.username) && |http.username| <= 65533 {
      DecryptOfEncrypted(env.cipher, http.storedUsername, http.username);
      ReopenedWhole(http.username);
    }
  }

  /** The settings of the two configs are the same: all that is no credential, and of the groups their filters. */
  predicate KeepsSettings(c: ConfigState, d: ConfigState) {
    && d.addr == c.addr && d.uid == c.uid && d.gid == c.gid
    && d.http.addr == c.http.addr && d.http.filter.doc == c.http.filter.doc
    && d.groups.Keys == c.groups.Keys
    && (forall g :: g in c.groups ==> d.groups[g].filter.doc == c.groups[g].filter.doc)
    && d.users.Keys == c.users.Keys && forall l :: l in c.users ==> KeepsUserSettings(c.users[l], d.users[l])
  }

  predicate KeepsUserSettings(u: UserState, v: UserState) {
    && v.maxSessions == u.maxSessions && v.groups == u.groups
    && v.filter.doc == u.filter.doc && v.own == u.own
  }

  lemma {:induction false} ExportsKeepSettings(env: Env, s: ServerState, n: nat)
    requires s.config.Some? && ExportsSafe(env, s, n)
    ensures KeepsSettings(s.config.value, Exports(env, s, n).config.value)
  {
    if n > 0 {
      ExportsKeepSettings(env, s, n - 1);
      ExportOutcome(env, Exports(env, s, n - 1));
      assert Exports(env, s, n) == ExportedState(env, Exports(env, s, n - 1));
      SettingsChain(s.config.value, Exports(env, s, n - 1).config.value, Exports(env, s, n).config.value);
    }
  }

  lemma SettingsChain(c: ConfigState, d: ConfigState, e: ConfigState)
    requires KeepsSettings(c, d)
    requires e.addr == d.addr && e.uid == d.uid && e.gid == d.gid && e.groups == d.groups
    requires e.http.addr == d.http.addr && e.http.filter == d.http.filter
    requires e.users.Keys == d.users.Keys && forall l :: l in d.users ==> OnlyStoredLost(d.users[l], e.users[l])
    ensures KeepsSettings(c, e)
  {
    forall l | l in c.users
      ensures KeepsUserSettings(c.users[l], e.users[l])
    {
      assert KeepsUserSettings(c.users[l], d.users[l]) && OnlyStoredLost(d.users[l], e.users[l]);
    }
  }

  lemma LoadKeepsSettings(env: Env, x: ServerState, s': ServerState)
    requires x.config.Some? && Loaded(env, x, DocOf(x.config.value), s')
    ensures KeepsSettings(x.config.value, s'.config.value)
  {
    var c, d := x.config.value, s'.config.value;
    forall l | l in c.users
      ensures l in d.users && KeepsUserSettings(c.users[l], d.users[l])
    {
      LoadedUser(env, x, DocOf(c), s', l);
      assert DocOf(c).users[l] == UserDocOf(c.users[l]);
    }
    forall g | g in c.groups
      ensures g in d.groups && d.groups[g].filter.doc == c.groups[g].filter.doc
    {
      assert GroupLoaded(env, DocOf(c).groups[g], d.groups[g]);
    }
  }

  lemma BothKeep(c: ConfigState, d: ConfigState, e: ConfigState)
    requires KeepsSettings(c, d) && KeepsSettings(d, e)
    ensures KeepsSettings(c, e)
  {
    forall l | l in c.users
      ensures KeepsUserSettings(c.users[l], e.users[l])
    {
      assert KeepsUserSettings(c.users[l], d.users[l]) && KeepsUserSettings(d.users[l], e.users[l]);
    }
  }

  /** Export any number of times and import the unedited document: every setting is as before. */
  lemma SettingsSurvive(env: Env, s: ServerState, n: nat, s': ServerState)
    requires s.config.Some? && Imported(env, s, n, s')
    ensures KeepsSettings(s.config.value, s'.config.value)
  {
    var x := Exports(env, s, n);
    ExportsKeepSettings(env, s, n);
    LoadKeepsSettings(env, x, s');
    BothKeep(s.config.value, x.config.value, s'.config.value);
  }

  /** And so it is at any point of any run, by the web or by a file. */
  lemma SettingsSurviveInRun(env: Env, first: ConfigDoc, states: seq<ServerState>, ops: seq<Op>, i: nat, n: nat)
    requires Run(env, first, states, ops)
    requires n > 0 && i + n < |ops| && Exporting(ops, i, n) && ImportsOwn(states[i + n], ops[i + n])
    ensures states[i].config.Some? && states[i + n + 1].config.Some?
    ensures KeepsSettings(states[i].config.value, states[i + n + 1].config.value)
  {
    RunHasConfigs(env, first, states, ops);
    ExportsReached(env, first, states, ops, i, n);
    assert StepsAt(env, states, ops, i + n);
    SettingsInRun(env, states, ops, i, n);
  }

  lemma SettingsInRun(env: Env, states: seq<ServerState>, ops: seq<Op>, i: nat, n: nat)
    requires |states| == |ops| + 1 && HasConfigs(states) && 0 < n && i + n < |ops|
    requires ExportsSafe(env, states[i], n) && states[i + n] == Exports(env, states[i], n)
    requires StepsAt(env, states, ops, i + n) && ImportsOwn(states[i + n], ops[i + n])
    ensures KeepsSettings(states[i].config.value, states[i + n + 1].config.value)
  {
    SettingsInStep(env, states[i], n, states[i + n], ops[i + n], states[i + n + 1]);
  }

  lemma SettingsInStep(env: Env, s: ServerState, n: nat, x: ServerState, op: Op, s': ServerState)
    requires s.config.Some? && n > 0 && ExportsSafe(env, s, n) && x == Exports(env, s, n)
    requires x.config.Some? && s'.config.Some? && ImportsOwn(x, op)
    ensures Step(env, x, op, s') ==> KeepsSettings(s.config.value, s'.config.value)
  {
    if Step(env, x, op, s') {
      var t := if op.Post? then WithToken(s', "") else s';
      ImportLoads(env, x, op, s', t);
      SettingsSurvive(env, s, n, t);
    }
  }

  // ---------------------------------------------------------------- what users may do

  /** A user that can log in has the filter and the mapping that its own fields and the groups say. */
  ghost predicate Placed(env: Env, groups: map<string, GroupState>, login: string, u: UserState) {
    CanLogIn(u) ==> SetUp(env, UserGroups(env, groups, UserDocOf(u)), login, UserDocOf(u), u)
  }

  predicate CanLogIn(u: UserState) {
    u.password != [] || u.pubkey != []
  }

  ghost predicate AllPlaced(env: Env, cfg: ConfigState) {
    GroupsParsed(env, cfg.groups) && forall l :: l in cfg.users ==> Placed(env, cfg.groups, l, cfg.users[l])
  }

  /** Being set up depends on the filter, the group names and the own mappings of the document. */
  lemma SetUpBy(env: Env, groups: map<string, GroupState>, login: string, d: UserDoc, u: UserState,
                e: UserDoc, v: UserState)
    requires SetUp(env, UserGroups(env, groups, d), login, d, u)
    requires e.groups == d.groups && e.filter == d.filter && e.mapping == d.mapping
    requires v.login == u.login && v.filter == u.filter && v.mapping == u.mapping
    ensures SetUp(env, UserGroups(env, groups, e), login, e, v)
  {
  }

  lemma LoadPlaces(env: Env, s: ServerState, doc: ConfigDoc, s': ServerState)
    requires Loads(env, s, doc, s')
    ensures AllPlaced(env, s'.config.value)
  {
    GroupsAreParsed(env, s, doc, s');
    forall l | l in doc.users
      ensures Placed(env, s'.config.value.groups, l, s'.Users()[l])
    {
      LoadPlacesUser(env, s, doc, s', l);
    }
    LoadedUserTable(env, s, doc, s');
  }

  lemma LoadPlacesUser(env: Env, s: ServerState, doc: ConfigDoc, s': ServerState, login: string)
    requires Loads(env, s, doc, s') && login in doc.users
    ensures login in s'.Users() && Placed(env, s'.config.value.groups, login, s'.Users()[login])
  {
    SetUpExactly(env, s, doc, s', login);
    LoadedUser(env, s, doc, s', login);
    var u := s'.Users()[login];
    if CanLogIn(u) {
      SetUpBy(env, s'.config.value.groups, login, doc.users[login], u, UserDocOf(u), u);
    }
  }

  lemma ExportPlaces(env: Env, s: ServerState)
    requires ExportSafe(env, s) && AllPlaced(env, s.config.value)
    ensures AllPlaced(env, ExportedState(env, s).config.value)
  {
    var c, d := s.config.value, ExportedState(env, s).config.value;
    ExportOutcome(env, s);
    forall l | l in d.users
      ensures Placed(env, d.groups, l, d.users[l])
    {
      var u, v := c.users[l], d.users[l];
      assert OnlyStoredLost(u, v) && Placed(env, c.groups, l, u);
      if CanLogIn(v) {
        SetUpBy(env, c.groups, l, UserDocOf(u), u, UserDocOf(v), v);
      }
    }
  }

  lemma StepPlaces(env: Env, s: ServerState, op: Op, s': ServerState)
    requires env.Lawful() && StateInv(env, s) && s.config.Some? && AllPlaced(env, s.config.value)
    ensures Step(env, s, op, s') ==> AllPlaced(env, s'.config.value)
  {
    if Step(env, s, op, s') {
      match op {
        case Reload(d) =>
          if d.Some? {
            LoadPlaces(env, s, d.value, s');
          }
        case Post(d) =>
          if d.Some? {
            LoadPlaces(env, s, d.value, WithToken(s', ""));
          }
        case Export =>
          ExportPlaces(env, s);
        case Login(_, _, _) =>
        case Logout =>
      }
    }
  }

  lemma {:induction false} StepsPlace(env: Env, states: seq<ServerState>, ops: seq<Op>, i: nat)
    requires env.Lawful() && |states| == |ops| + 1 && Steps(env, states, ops) && i <= |ops|
    requires StateInv(env, states[0]) && states[0].config.Some? && AllPlaced(env, states[0].config.value)
    ensures states[i].config.Some? && AllPlaced(env, states[i].config.value)
  {
    if i > 0 {
      StepsPlace(env, states, ops, i - 1);
      StepsKeepInv(env, states, ops, i - 1);
      assert StepsAt(env, states, ops, i - 1);
      StepPlaces(env, states[i - 1], ops[i - 1], states[i]);
    }
  }

  /** In every state of every run, whoever can log in has the filter and directories of the current config. */
  lemma RunPlaces(env: Env, first: ConfigDoc, states: seq<ServerState>, ops: seq<Op>, i: nat)
    requires env.Lawful() && Run(env, first, states, ops) && i <= |ops|
    ensures states[i].config.Some? && AllPlaced(env, states[i].config.value)
  {
    FirstLoadInv(env, first, states, ops);
    FirstLoadPlaces(env, first, states, ops);
    StepsPlace(env, states, ops, i);
  }

  lemma FirstLoadPlaces(env: Env, first: ConfigDoc, states: seq<ServerState>, ops: seq<Op>)
    requires env.Lawful() && Run(env, first, states, ops)
    ensures states[0].config.Some? && AllPlaced(env, states[0].config.value)
  {
    assert StateInv(env, EMPTY);
    LoadPlaces(env, EMPTY, first, states[0]);
  }

  /** Loading the live config's own document leaves everybody who can log in the same addresses and directories. */
  lemma OwnDocumentPlaces(env: Env, x: ServerState, s': ServerState, login: string)
    requires x.config.Some? && Loads(env, x, DocOf(x.config.value), s') && AllPlaced(env, x.config.value)
    requires login in x.Users() && CanLogIn(x.Users()[login])
    ensures login in s'.Users() && SameAccess(x.Users()[login], s'.Users()[login])
  {
    var cfg, u := x.config.value, x.Users()[login];
    var doc := DocOf(cfg);
    assert doc.users[login] == UserDocOf(u);
    StillSetUp(env, x, s', login);
    SetUpExactly(env, x, doc, s', login);
    GroupsAgain(env, x, s');
    AllSameGroups(cfg, s'.config.value);
    assert Placed(env, cfg.groups, login, u);
    SetUpAgain(env, cfg.groups, s'.config.value.groups, login, UserDocOf(u), UserDocOf(u), u, s'.Users()[login]);
  }

  /** Equal filters, and equal directories up to their handles. */
  predicate SameAccess(u: UserState, v: UserState) {
    v.login == u.login && v.filter == u.filter && SameEntries(u.mapping, v.mapping)
  }

  /** A user with a credential at run time has a stored one after the load. */
  lemma StillSetUp(env: Env, x: ServerState, s': ServerState, login: string)
    requires x.config.Some? && Loads(env, x, DocOf(x.config.value), s')
    requires login in x.Users() && CanLogIn(x.Users()[login])
    ensures login in s'.Users()
    ensures s'.Users()[login].storedPassword != [] || s'.Users()[login].storedPubKey != []
  {
    var doc, u := DocOf(x.config.value), x.Users()[login];
    assert doc.users[login] == UserDocOf(u) && x.User(login) == Some(u);
    assert UserInv(env, login, u);
    PasswordOutcome(env, x, doc, s', login);
    PubKeyOutcome(env, x, doc, s', login);
    StoredStays(env.cipher, login, u, s'.Users()[login]);
  }

  lemma StoredStays(c: Primitives, login: string, u: UserState, v: UserState)
    requires PasswordForm(c, u.storedPassword, u.password) && PubKeyForm(c, u.storedPubKey, u.pubkey)
    requires PasswordFollows(c, u.storedPassword, Some(u), v) && PubKeyFollows(c, u.storedPubKey, Some(u), v)
    ensures CanLogIn(u) ==> v.storedPassword != [] || v.storedPubKey != []
  {
    PrefixIsText(u.storedPassword);
    PrefixIsText(u.storedPubKey);
    SealedIsNotBlank(c, v.storedPassword, v.password);
    SealedIsNotBlank(c, v.storedPubKey, u.pubkey);
  }

  lemma SealedIsNotBlank(c: Primitives, t: Bytes, p: Bytes)
    ensures Encrypts(c, t, p) ==> t != []
  {
  }

  lemma GroupsAgain(env: Env, x: ServerState, s': ServerState)
    requires x.config.Some? && AllPlaced(env, x.config.value) && Loads(env, x, DocOf(x.config.value), s')
    ensures s'.config.value.groups.Keys == x.config.value.groups.Keys
    ensures forall g :: g in x.config.value.groups ==> SameGroupAt(x.config.value, s'.config.value, g)
  {
    var cfg := x.config.value;
    GroupKeys(env, x, s');
    forall g | g in cfg.groups
      ensures SameGroupAt(cfg, s'.config.value, g)
    {
      GroupAgainAt(env, x, s', g);
    }
  }

  lemma AllSameGroups(c: ConfigState, d: ConfigState)
    requires forall g :: g in c.groups ==> SameGroupAt(c, d, g)
    ensures forall g :: g in c.groups ==> g in d.groups && SameGroup(c.groups[g], d.groups[g])
  {
    forall g | g in c.groups
      ensures g in d.groups && SameGroup(c.groups[g], d.groups[g])
    {
      assert SameGroupAt(c, d, g);
    }
  }

  predicate SameGroupAt(c: ConfigState, d: ConfigState, g: string)
    requires g in c.groups
  {
    g in d.groups && SameGroup(c.groups[g], d.groups[g])
  }

  lemma GroupAgainAt(env: Env, x: ServerState, s': ServerState, g: string)
    requires x.config.Some? && s'.config.Some? && g in x.config.value.groups
    ensures AllPlaced(env, x.config.value) && Loads(env, x, DocOf(x.config.value), s') ==>
              SameGroupAt(x.config.value, s'.config.value, g)
  {
    var cfg := x.config.value;
    assert g in DocOf(cfg).groups;
    if AllPlaced(env, cfg) && Loads(env, x, DocOf(cfg), s') {
      assert GroupInv(env, cfg.groups[g]);
      LoadedGroup(env, x, DocOf(cfg), s', g);
      SavedGroupOpened(env, x, cfg, g);
      GroupAgain(env, cfg.groups[g], s'.config.value.groups[g]);
    }
  }

  lemma GroupKeys(env: Env, x: ServerState, s': ServerState)
    requires x.config.Some?
    ensures Loads(env, x, DocOf(x.config.value), s') ==>
              s'.config.Some? && s'.config.value.groups.Keys == x.config.value.groups.Keys
  {
  }

  lemma GroupAgain(env: Env, g: GroupState, g': GroupState)
    requires g.filter == ParsedFilter(env.parser, g.filter.doc) && Opened(g) && GroupLoaded(env, GroupDocOf(g), g')
    requires forall a :: a in g.mapping ==> Usable(env, EntryDoc(g.mapping[a].value))
    ensures SameGroup(g, g')
  {
    forall a | a in g.mapping
      ensures g'.mapping[a].Some? && EntryDoc(g.mapping[a].value) == EntryDoc(g'.mapping[a].value)
    {
      assert GroupDocOf(g).mapping[a] == Some(EntryDoc(g.mapping[a].value));
    }
  }

  lemma {:induction false} ExportsPlace(env: Env, s: ServerState, n: nat)
    requires s.config.Some? && ExportsSafe(env, s, n) && AllPlaced(env, s.config.value)
    ensures AllPlaced(env, Exports(env, s, n).config.value)
    ensures forall l :: l in s.Users() ==> AccessKept(s, Exports(env, s, n), l)
  {
    if n > 0 {
      var x := Exports(env, s, n - 1);
      ExportsPlace(env, s, n - 1);
      ExportPlaces(env, x);
      assert Exports(env, s, n) == ExportedState(env, x);
      forall l | l in s.Users()
        ensures AccessKept(s, ExportedState(env, x), l)
      {
        assert AccessKept(s, x, l);
        AccessKeptOnce(env, x, l);
      }
    }
  }

  predicate AccessKept(s: ServerState, x: ServerState, login: string)
    requires login in s.Users()
  {
    && login in x.Users() && CanLogIn(x.Users()[login]) == CanLogIn(s.Users()[login])
    && SameAccess(s.Users()[login], x.Users()[login])
  }

  lemma AccessKeptOnce(env: Env, s: ServerState, login: string)
    requires ExportSafe(env, s) && login in s.Users()
    ensures AccessKept(s, ExportedState(env, s), login)
  {
    ExportOutcome(env, s);
    assert OnlyStoredLost(s.Users()[login], ExportedState(env, s).Users()[login]);
  }

  /**
    Export any number of times and import: whoever could log in can do so from the same addresses and
    to the same directories.
    */
  lemma AccessSurvives(env: Env, s: ServerState, n: nat, s': ServerState, login: string)
    requires env.Lawful() && StateInv(env, s) && s.config.Some? && Imported(env, s, n, s')
    requires AllPlaced(env, s.config.value) && login in s.Users() && CanLogIn(s.Users()[login])
    ensures login in s'.Users() && SameAccess(s.Users()[login], s'.Users()[login])
  {
    var x := Exports(env, s, n);
    ExportsPlace(env, s, n);
    ExportsKeepInv(env, s, n);
    assert AccessKept(s, x, login);
    OwnDocumentPlaces(env, x, s', login);
  }

  lemma {:induction false} ExportsKeepInv(env: Env, s: ServerState, n: nat)
    requires StateInv(env, s) && s.config.Some? && ExportsSafe(env, s, n)
    ensures StateInv(env, Exports(env, s, n))
  {
    if n > 0 {
      ExportsKeepInv(env, s, n - 1);
      ExportKeepsInv(env, Exports(env, s, n - 1));
      assert Exports(env, s, n) == ExportedState(env, Exports(env, s, n - 1));
    }
  }

  /** And so it is at any point of any run, by the web or by a file. */
  lemma AccessSurvivesInRun(env: Env, first: ConfigDoc, states: seq<ServerState>, ops: seq<Op>, i: nat, n: nat,
                            login: string)
    requires env.Lawful() && Run(env, first, states, ops)
    requires n > 0 && i + n < |ops| && Exporting(ops, i, n) && ImportsOwn(states[i + n], ops[i + n])
    requires login in states[i].Users() && CanLogIn(states[i].Users()[login])
    ensures login in states[i + n + 1].Users()
    ensures SameAccess(states[i].Users()[login], states[i + n + 1].Users()[login])
  {
    RunHasConfigs(env, first, states, ops);
    RunKeepsInv(env, first, states, ops, i);
    RunPlaces(env, first, states, ops, i);
    ExportsReached(env, first, states, ops, i, n);
    assert StepsAt(env, states, ops, i + n);
    AccessInRun(env, states, ops, i, n, login);
  }

  lemma AccessInRun(env: Env, states: seq<ServerState>, ops: seq<Op>, i: nat, n: nat, login: string)
    requires env.Lawful() && |states| == |ops| + 1 && HasConfigs(states)
    requires 0 < n && i + n < |ops| && StateInv(env, states[i]) && AllPlaced(env, states[i].config.value)
    requires ExportsSafe(env, states[i], n) && states[i + n] == Exports(env, states[i], n)
    requires StepsAt(env, states, ops, i + n) && ImportsOwn(states[i + n], ops[i + n])
    requires login in states[i].Users() && CanLogIn(states[i].Users()[login])
    ensures login in states[i + n + 1].Users()
    ensures SameAccess(states[i].Users()[login], states[i + n + 1].Users()[login])
  {
    AccessInStep(env, states[i], n, states[i + n], ops[i + n], states[i + n + 1], login);
  }

  lemma AccessInStep(env: Env, s: ServerState, n: nat, x: ServerState, op: Op, s': ServerState, login: string)
    requires env.Lawful() && StateInv(env, s) && s.config.Some? && AllPlaced(env, s.config.value)
    requires n > 0 && ExportsSafe(env, s, n) && x == Exports(env, s, n)
    requires x.config.Some? && s'.config.Some? && ImportsOwn(x, op)
    requires login in s.Users() && CanLogIn(s.Users()[login])
    ensures Step(env, x, op, s') ==> login in s'.Users() && SameAccess(s.Users()[login], s'.Users()[login])
  {
    if Step(env, x, op, s') {
      var t := if op.Post? then WithToken(s', "") else s';
      ImportLoads(env, x, op, s', t);
      AccessSurvives(env, s, n, t, login);
    }
  }
}
