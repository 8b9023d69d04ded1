/** What loads and exports keep, over single calls and over whole runs. */
module ConfigTheorems {
  import opened Wrappers
  import opened Cipher
  import opened ConfigModel
  import opened ConfigSpec

  // ---------------------------------------------------------------- the invariant

  lemma SourceReopens(c: Primitives, src: Source, stored: Bytes)
    requires c.Lawful() && SourceStored(c, src, stored) && SourceOutcome(c, src) != Panic
    ensures stored == [] <==> src == Keep([])
    ensures stored != [] ==> IsEncrypted(stored) && Decrypt(c, stored) == SourceOutcome(c, src)
    ensures SourceOutcome(c, src).Ok? ==> |SourceOutcome(c, src).value| <= MAX_SECRET
  {
    match src {
      case Fresh(p) =>
        DecryptOfEncrypted(c, stored, p);
      case Keep(t) =>
        if t == [] {
        } else if IsEncrypted(t) {
          DecryptedLength(c, t);
        } else {
          DecryptOfEncrypted(c, stored, t);
        }
    }
  }

  lemma PasswordKept(env: Env, login: string, doc: UserDoc, prev: Option<UserState>, u: UserState)
    requires env.Lawful() && CredentialsSafe(env.cipher, doc, prev)
    requires prev.Some? ==> UserInv(env, login, prev.value)
    requires SourceStored(env.cipher, PasswordSource(doc, prev), u.storedPassword)
    requires u.password == LoadedPassword(env.cipher, doc, prev)
    ensures PasswordForm(env.cipher, u.storedPassword, u.password)
    ensures PasswordSource(doc, prev) == Keep([]) ==> u.password == []
  {
    SourceReopens(env.cipher, PasswordSource(doc, prev), u.storedPassword);
  }

  lemma PubKeyKept(env: Env, login: string, doc: UserDoc, prev: Option<UserState>, u: UserState)
    requires env.Lawful() && CredentialsSafe(env.cipher, doc, prev)
    requires prev.Some? ==> UserInv(env, login, prev.value)
    requires SourceStored(env.cipher, PubKeySource(doc, prev), u.storedPubKey)
    requires u.pubkey == LoadedPubKey(env.cipher, doc, prev)
    ensures PubKeyForm(env.cipher, u.storedPubKey, u.pubkey)
    ensures PubKeySource(doc, prev) == Keep([]) ==> u.pubkey == []
  {
    SourceReopens(env.cipher, PubKeySource(doc, prev), u.storedPubKey);
  }

  lemma UserInvEstablished(env: Env, groups: map<string, GroupState>, login: string,
                           doc: UserDoc, prev: Option<UserState>, u: UserState)
    requires env.Lawful() && CredentialsSafe(env.cipher, doc, prev)
    requires prev.Some? ==> UserInv(env, login, prev.value)
    requires UserLoaded(env, groups, login, doc, prev, u)
    ensures UserInv(env, login, u)
  {
    PasswordKept(env, login, doc, prev, u);
    PubKeyKept(env, login, doc, prev, u);
  }

  lemma SecureFieldForm(c: Primitives, json: Bytes, prev: Bytes, stored: Bytes)
    requires c.Lawful() && Decrypt(c, json) != Panic
    requires SecureStored(c, json, SecureRuntime(c, json, [], prev), stored)
    ensures BlankForm(c, stored, SecureRuntime(c, json, [], prev))
    ensures |SecureRuntime(c, json, [], prev)| <= MAX_SECRET ==>
              Decrypt(c, stored) == Ok(SecureRuntime(c, json, [], prev))
  {
    SecureFieldConsistent(c, json, prev, stored);
  }

  /** Every load establishes the invariant, whatever the document. */
  lemma LoadKeepsInv(env: Env, s: ServerState, doc: ConfigDoc, s': ServerState)
    requires env.Lawful() && StateInv(env, s)
    requires LoadSafe(env, s, doc) && Loaded(env, s, doc, s')
    ensures StateInv(env, s')
  {
    LoadedUsersInv(env, s, doc, s');
    LoadedGroupsInv(env, s, doc, s');
    LoadedSecretsInv(env, s, doc, s');
  }

  lemma LoadedGroupsInv(env: Env, s: ServerState, doc: ConfigDoc, s': ServerState)
    requires Loaded(env, s, doc, s')
    ensures forall g :: g in s'.config.value.groups ==> GroupInv(env, s'.config.value.groups[g])
  {
  }

  lemma LoadedSecretsInv(env: Env, s: ServerState, doc: ConfigDoc, s': ServerState)
    requires env.Lawful() && LoadSafe(env, s, doc) && Loaded(env, s, doc, s')
    ensures var cfg := s'.config.value;
            && BlankForm(env.cipher, cfg.storedHostKey, cfg.hostKey)
            && BlankForm(env.cipher, cfg.http.storedUrl, cfg.http.url)
            && BlankForm(env.cipher, cfg.http.storedUsername, cfg.http.username)
            && UsernameForm(env.cipher, cfg.http.storedUsername, cfg.http.username)
  {
    var c, cfg, prev := env.cipher, s'.config.value, OldHttp(s);
    SecureFieldForm(c, doc.hostKey, [], cfg.storedHostKey);
    SecureFieldForm(c, doc.http.url, if prev.Some? then prev.value.url else [], cfg.http.storedUrl);
    SecureFieldForm(c, doc.http.username, if prev.Some? then prev.value.username else [], cfg.http.storedUsername);
  }

  lemma LoadedUsersInv(env: Env, s: ServerState, doc: ConfigDoc, s': ServerState)
    requires env.Lawful() && StateInv(env, s)
    requires LoadSafe(env, s, doc) && Loaded(env, s, doc, s')
    ensures forall l :: l in s'.config.value.users ==> UserInv(env, l, s'.config.value.users[l])
  {
    var cfg := s'.config.value;
    forall l | l in cfg.users
      ensures UserInv(env, l, cfg.users[l])
    {
      assert UserSafe(env, doc, doc.users[l], s.User(l));
      UserInvEstablished(env, cfg.groups, l, doc.users[l], s.User(l), cfg.users[l]);
    }
  }

  lemma ExportKeepsInv(env: Env, s: ServerState)
    requires StateInv(env, s) && ExportSafe(env, s)
    ensures StateInv(env, ExportedState(env, s))
  {
  }

  lemma StepKeepsInv(env: Env, s: ServerState, op: Op, s': ServerState)
    requires env.Lawful() && StateInv(env, s)
    ensures Step(env, s, op, s') ==> StateInv(env, s')
  {
    if Step(env, s, op, s') {
      match op {
        case Reload(d) =>
          if d.Some? {
            LoadKeepsInv(env, s, d.value, s');
          }
        case Post(d) =>
          if d.Some? {
            LoadKeepsInv(env, s, d.value, WithToken(s', ""));
          }
        case Export =>
          ExportKeepsInv(env, s);
        case Login(_, _, _) =>
        case Logout =>
      }
    }
  }

  /**
    In every state of every run the fingerprint index agrees with the user table, and stored and
    runtime credentials belong together, although exports replace every user and leave the index.
    */
  lemma RunKeepsInv(env: Env, first: ConfigDoc, states: seq<ServerState>, ops: seq<Op>, i: nat)
    requires env.Lawful() && Run(env, first, states, ops) && i <= |ops|
    ensures StateInv(env, states[i]) && states[i].config.Some?
  {
    FirstLoadInv(env, first, states, ops);
    StepsKeepInv(env, states, ops, i);
  }

  lemma {:induction false} StepsKeepInv(env: Env, states: seq<ServerState>, ops: seq<Op>, i: nat)
    requires env.Lawful() && |states| == |ops| + 1 && Steps(env, states, ops) && i <= |ops|
    requires StateInv(env, states[0]) && states[0].config.Some?
    ensures StateInv(env, states[i]) && states[i].config.Some?
  {
    if i > 0 {
      StepsKeepInv(env, states, ops, i - 1);
      assert StepsAt(env, states, ops, i - 1);
      StepKeepsInv(env, states[i - 1], ops[i - 1], states[i]);
    }
  }

  lemma FirstLoadInv(env: Env, first: ConfigDoc, states: seq<ServerState>, ops: seq<Op>)
    requires env.Lawful() && Run(env, first, states, ops)
    ensures StateInv(env, states[0]) && states[0].config.Some?
  {
    LoadKeepsInv(env, EMPTY, first, states[0]);
  }

  lemma StepAt(env: Env, first: ConfigDoc, states: seq<ServerState>, ops: seq<Op>, i: nat)
    requires Run(env, first, states, ops) && i < |ops|
    ensures Step(env, states[i], ops[i], states[i + 1])
  {
    assert StepsAt(env, states, ops, i);
  }

  /** No two users have keys of one fingerprint. */
  predicate DistinctKeys(env: Env, users: map<string, UserState>) {
    forall l, m :: l in users && m in users && l != m && env.fingerprint(users[l].pubkey).Some? ==>
      env.fingerprint(users[l].pubkey) != env.fingerprint(users[m].pubkey)
  }

  /** With distinct fingerprints the index is a function of the user table: map order leaves no trace. */
  lemma IndexDetermined(env: Env, users: map<string, UserState>,
                        index: map<string, string>, index': map<string, string>)
    requires IndexAgrees(env, users, index) && IndexAgrees(env, users, index')
    requires DistinctKeys(env, users)
    ensures index == index'
  {
    forall fp
      ensures fp in index ==> fp in index' && index[fp] == index'[fp]
      ensures fp in index' ==> fp in index
    {
    }
  }

  /** The index is a function of the user table exactly if the fingerprints are distinct: else a key has two owners. */
  lemma IndexUnique(env: Env, users: map<string, UserState>, index: map<string, string>)
    requires IndexAgrees(env, users, index)
    ensures (forall index' :: IndexAgrees(env, users, index') ==> index' == index) <==> DistinctKeys(env, users)
  {
    if DistinctKeys(env, users) {
      forall index' | IndexAgrees(env, users, index')
        ensures index' == index
      {
        IndexDetermined(env, users, index, index');
      }
    } else {
      var l, m :| && l in users && m in users && l != m && env.fingerprint(users[l].pubkey).Some?
                  && env.fingerprint(users[l].pubkey) == env.fingerprint(users[m].pubkey);
      var index' := SharedKey(env, users, index, l, m);
      assert IndexAgrees(env, users, index');
    }
  }

  lemma SharedKey(env: Env, users: map<string, UserState>, index: map<string, string>, l: string, m: string)
    returns (index': map<string, string>)
    requires IndexAgrees(env, users, index) && l in users && m in users && l != m
    requires var key := env.fingerprint(users[l].pubkey); key.Some? && key == env.fingerprint(users[m].pubkey)
    ensures IndexAgrees(env, users, index') && index' != index
  {
    var fp := env.fingerprint(users[l].pubkey).value;
    index' := index[fp := if index[fp] == l then m else l];
    assert index'[fp] != index[fp];
  }

  // ---------------------------------------------------------------- exporting and importing

  /** The state after `n` exports. */
  ghost function Exports(env: Env, s: ServerState, n: nat): ServerState
    requires s.config.Some?
    ensures Exports(env, s, n).config.Some?
  {
    if n == 0 then s else ExportedState(env, Exports(env, s, n - 1))
  }

  ghost predicate ExportsSafe(env: Env, s: ServerState, n: nat)
    requires s.config.Some?
  {
    forall i :: 0 <= i < n ==> ExportSafe(env, Exports(env, s, i))
  }

  /** After `n` exports the document is loaded unedited, which takes the server to `s'`. */
  ghost predicate Imported(env: Env, s: ServerState, n: nat, s': ServerState)
    requires s.config.Some?
  {
    && n > 0 && ExportsSafe(env, s, n)
    && var x := Exports(env, s, n);
       LoadSafe(env, x, DocOf(x.config.value)) && Loaded(env, x, DocOf(x.config.value), s')
  }

  /** After one export or more the table has every user with blank stored credentials and nothing else changed. */
  lemma {:induction false} ExportsBlank(env: Env, s: ServerState, n: nat)
    requires s.config.Some? && n > 0 && ExportsSafe(env, s, n) && StateInv(env, s)
    ensures var cfg, cfg' := s.config.value, Exports(env, s, n).config.value;
            && cfg'.users == (map l | l in cfg.users :: Blanked(cfg.users[l]))
            && cfg'.hostKey == cfg.hostKey && (cfg.hostKey != [] ==> cfg'.storedHostKey == cfg.hostKey)
            && cfg'.http.url == cfg.http.url && (cfg.http.url != [] ==> cfg'.http.storedUrl == cfg.http.url)
            && cfg'.http.username == cfg.http.username
            && cfg'.http.password == cfg.http.password && cfg'.http.storedPassword == []
            && cfg'.groups == cfg.groups
    ensures Exports(env, s, n).index == s.index
    ensures StateInv(env, Exports(env, s, n))
  {
    if n > 1 {
      ExportsBlank(env, s, n - 1);
    }
    assert ExportSafe(env, Exports(env, s, n - 1));
    ExportKeepsInv(env, Exports(env, s, n - 1));
  }

  /** Field by field: no user has lost more than stored credentials, and only secrets of the config are written over. */
  lemma ExportsShape(env: Env, s: ServerState, n: nat)
    requires s.config.Some? && n > 0 && ExportsSafe(env, s, n) && StateInv(env, s)
    ensures var (c, d) := (s.config.value, Exports(env, s, n).config.value);
            && d.users.Keys == c.users.Keys && (forall l :: l in c.users ==> OnlyStoredLost(c.users[l], d.users[l]))
            && PlainSecrets(c, d) && SameButSecrets(c, d)
    ensures Exports(env, s, n).index == s.index
  {
    ExportsBlank(env, s, n);
    ExportsElsewhere(env, s, n);
    AllOnlyStoredLost(s.Users(), Exports(env, s, n).Users());
  }

  predicate PlainSecrets(c: ConfigState, d: ConfigState) {
    && d.hostKey == c.hostKey && (c.hostKey != [] ==> d.storedHostKey == c.hostKey)
    && d.http.url == c.http.url && (c.http.url != [] ==> d.http.storedUrl == c.http.url)
    && d.http.username == c.http.username
    && d.http.password == c.http.password && d.http.storedPassword == []
  }

  predicate SameButSecrets(c: ConfigState, d: ConfigState) {
    && d.addr == c.addr && d.uid == c.uid && d.gid == c.gid && d.groups == c.groups
    && d.http.addr == c.http.addr && d.http.token == c.http.token && d.http.filter == c.http.filter
  }

  lemma AllOnlyStoredLost(users: map<string, UserState>, users': map<string, UserState>)
    requires users' == map l | l in users :: Blanked(users[l])
    ensures forall l :: l in users ==> OnlyStoredLost(users[l], users'[l])
  {
  }

  lemma {:induction false} ExportsElsewhere(env: Env, s: ServerState, n: nat)
    requires s.config.Some?
    ensures SameButSecrets(s.config.value, Exports(env, s, n).config.value)
  {
    if n > 0 {
      ExportsElsewhere(env, s, n - 1);
    }
  }

  /** Every key fits the codec: only a key that does not decrypt can be longer. */
  predicate KeysFit(users: map<string, UserState>) {
    forall l :: l in users ==> |users[l].pubkey| <= MAX_SECRET
  }

  /** A user whose stored credentials were blanked gets the runtime ones back from the re-encrypted fallback. */
  lemma BlankedUserRestored(c: Primitives, u: UserState, u': UserState)
    requires |u.password| <= MAX_SECRET && |u.pubkey| <= MAX_SECRET
    requires CredentialsLoaded(c, UserDocOf(Blanked(u)), Some(Blanked(u)), u')
    ensures u'.password == u.password && u'.pubkey == u.pubkey
    ensures Skipped(UserDocOf(Blanked(u)), Some(Blanked(u))) <==> u.password == [] && u.pubkey == []
  {
    BlankSource(c, u.password, true);
    BlankSource(c, u.pubkey, false);
  }

  /** A blank document and a blanked old user: the old runtime value is encrypted anew, and reopens as it was. */
  lemma BlankSource(c: Primitives, runtime: Bytes, removable: bool)
    requires |runtime| <= MAX_SECRET
    ensures var src := CredentialSource([], Some(Credential([], runtime)), removable);
            && src == (if runtime == [] then Keep([]) else Fresh(runtime))
            && SourceOutcome(c, src) == Ok(runtime)
  {
    ReopenedWhole(runtime);
  }

  predicate SameAuthentication(login: string, u: UserState, u': UserState) {
    && u'.password == u.password && u'.pubkey == u.pubkey
    && (u.password != [] || u.pubkey != [] ==> u'.login == login == u.login)
  }

  lemma UserRestored(env: Env, groups: map<string, GroupState>, login: string, u: UserState, u': UserState)
    requires UserInv(env, login, u) && |u.pubkey| <= MAX_SECRET
    requires UserLoaded(env, groups, login, UserDocOf(Blanked(u)), Some(Blanked(u)), u')
    ensures SameAuthentication(login, u, u')
  {
    BlankedUserRestored(env.cipher, u, u');
  }

  lemma UsersRestored(env: Env, users: map<string, UserState>, x: ServerState, s': ServerState)
    requires x.config.Some? && x.Users() == map l | l in users :: Blanked(users[l])
    requires forall l :: l in users ==> UserInv(env, l, users[l])
    requires KeysFit(users)
    requires Loaded(env, x, DocOf(x.config.value), s')
    ensures s'.Users().Keys == users.Keys
    ensures forall l :: l in users ==> SameAuthentication(l, users[l], s'.Users()[l])
  {
    forall l | l in users
      ensures SameAuthentication(l, users[l], s'.Users()[l])
    {
      LoadedUser(env, x, DocOf(x.config.value), s', l);
      UserRestored(env, s'.config.value.groups, l, users[l], s'.Users()[l]);
    }
  }

  lemma LoadedUser(env: Env, s: ServerState, doc: ConfigDoc, s': ServerState, login: string)
    requires Loaded(env, s, doc, s') && login in doc.users
    ensures login in s'.Users()
    ensures UserLoaded(env, s'.config.value.groups, login, doc.users[login], s.User(login), s'.Users()[login])
  {
  }

  lemma SameLogins(env: Env, s: ServerState, s': ServerState)
    requires IndexAgrees(env, s.Users(), s.index) && IndexAgrees(env, s'.Users(), s'.index)
    requires env.fingerprint([]) == None
    requires DistinctKeys(env, s.Users()) && s'.Users().Keys == s.Users().Keys
    requires forall l :: l in s.Users() ==> SameAuthentication(l, s.Users()[l], s'.Users()[l])
    ensures SameVerdicts(s, s')
  {
    var users, users' := s.Users(), s'.Users();
    assert forall l :: l in users ==> users'[l].pubkey == users[l].pubkey;
    assert IndexAgrees(env, users, s'.index);
    IndexDetermined(env, users, s.index, s'.index);
  }

  /**
    Export, then import without edits: after any number of exports, loading the exported document
    leaves every password verdict, every public-key verdict and the web password as they were.
    */
  lemma AuthSurvivesExportImport(env: Env, s: ServerState, n: nat, s': ServerState)
    requires env.Lawful() && StateInv(env, s) && s.config.Some? && Imported(env, s, n, s')
    requires KeysFit(s.Users()) && DistinctKeys(env, s.Users())
    ensures SameVerdicts(s, s')
    ensures s'.config.value.http.password == s.config.value.http.password
  {
    var x := Exports(env, s, n);
    ExportsBlank(env, s, n);
    UsersRestored(env, s.Users(), x, s');
    SameLogins(env, s, s');
  }

  /** Decrypting the value, if that succeeds, gives the value itself or nothing. */
  predicate SurvivesWithFallback(c: Primitives, v: Bytes) {
    v == [] || (Decrypt(c, v).Ok? ==> Decrypt(c, v).value == v || Decrypt(c, v).value == [])
  }

  /** The host key has no fallback: the plaintext must not decrypt to anything else, not even to nothing. */
  predicate SurvivesAlone(c: Primitives, v: Bytes) {
    v == [] || (Decrypt(c, v).Ok? ==> Decrypt(c, v).value == v)
  }

  /**
    The web address and the host key are exported in the clear. They survive the import exactly if
    the plaintext is not itself a ciphertext of something else.
    */
  lemma PlainFieldsSurvive(env: Env, s: ServerState, n: nat, s': ServerState)
    requires env.Lawful() && StateInv(env, s) && s.config.Some? && Imported(env, s, n, s')
    ensures var c, before, after := env.cipher, s.config.value, s'.config.value;
            && (after.http.url == before.http.url <==> SurvivesWithFallback(c, before.http.url))
            && (after.hostKey == before.hostKey <==> SurvivesAlone(c, before.hostKey))
  {
    ExportsBlank(env, s, n);
  }

  /** What `n` exports make of a stored user name: each decrypts what it finds. */
  function Unwrapped(c: Primitives, stored: Bytes, n: nat): Bytes {
    if n == 0 then stored else ExportedUsername(c, Unwrapped(c, stored, n - 1))
  }

  lemma {:induction false} ExportsUnwrap(env: Env, s: ServerState, n: nat)
    requires s.config.Some?
    ensures Exports(env, s, n).config.value.http.storedUsername
         == Unwrapped(env.cipher, s.config.value.http.storedUsername, n)
  {
    if n > 0 {
      ExportsUnwrap(env, s, n - 1);
    }
  }

  /** Reading `w` from the document gives the name, directly or by falling back to it. */
  predicate ReadsAs(c: Primitives, w: Bytes, name: Bytes) {
    w == [] ||
    match Decrypt(c, w)
    case Ok(d) => d == [] || d == name
    case _ => w == name
  }

  /**
    The web user name is exported by decrypting its stored form, which a second export finds already
    decrypted. It survives exactly if what the exports left of the stored form reads as the name.
    */
  lemma UsernameSurvives(env: Env, s: ServerState, n: nat, s': ServerState)
    requires env.Lawful() && StateInv(env, s) && s.config.Some? && Imported(env, s, n, s')
    ensures var http := s.config.value.http;
            s'.config.value.http.username == http.username
            <==> ReadsAs(env.cipher, Unwrapped(env.cipher, http.storedUsername, n), http.username)
  {
    ExportsBlank(env, s, n);
    ExportsUnwrap(env, s, n);
  }

  /** A plaintext that decryption leaves alone or refuses survives any number of exports, if it fits the codec. */
  lemma InertUsernameSurvives(env: Env, s: ServerState, n: nat, s': ServerState)
    requires env.Lawful() && StateInv(env, s) && s.config.Some? && Imported(env, s, n, s')
    requires |s.config.value.http.username| <= MAX_SECRET && Inert(env.cipher, s.config.value.http.username)
    ensures s'.config.value.http.username == s.config.value.http.username
  {
    UsernameSurvives(env, s, n, s');
    InertUnwraps(env.cipher, s.config.value.http.storedUsername, s.config.value.http.username, n);
  }

  lemma {:induction false} InertUnwraps(c: Primitives, stored: Bytes, name: Bytes, n: nat)
    requires |name| <= MAX_SECRET && Inert(c, name) && n > 0
    requires BlankForm(c, stored, name) && UsernameForm(c, stored, name)
    ensures Unwrapped(c, stored, n) == [] || Unwrapped(c, stored, n) == name
  {
    if n > 1 {
      InertUnwraps(c, stored, name, n - 1);
    } else {
      assert Unwrapped(c, stored, 1) == ExportedUsername(c, Unwrapped(c, stored, 0));
    }
  }

  /** One export of a name that its stored form decrypts to: it survives unless it is a ciphertext of something else. */
  lemma UsernameSurvivesOnce(env: Env, s: ServerState, s': ServerState)
    requires env.Lawful() && StateInv(env, s) && s.config.Some? && Imported(env, s, 1, s')
    requires Decrypt(env.cipher, s.config.value.http.storedUsername) == Ok(s.config.value.http.username)
    ensures s'.config.value.http.username == s.config.value.http.username
       <==> SurvivesWithFallback(env.cipher, s.config.value.http.username)
  {
    OneUnwrap(env.cipher, s.config.value.http.storedUsername);
    UsernameSurvives(env, s, 1, s');
  }

  lemma OneUnwrap(c: Primitives, stored: Bytes)
    ensures Unwrapped(c, stored, 1) == ExportedUsername(c, stored)
  {
    assert Unwrapped(c, stored, 0) == stored;
  }

  /** A name that does not fit the codec comes back cut, although it is no ciphertext. */
  lemma LongUsernameIsCut(env: Env, s: ServerState, s': ServerState)
    requires env.Lawful() && StateInv(env, s) && s.config.Some? && Imported(env, s, 1, s')
    requires var http := s.config.value.http;
             && Encrypts(env.cipher, http.storedUsername, http.username)
             && |http.username| > MAX_SECRET && !IsEncrypted(http.username)
    ensures var name, name' := s.config.value.http.username, s'.config.value.http.username;
            && (|name| % UINT16 == 0 ==> name' == name)
            && (0 < |name| % UINT16 <= MAX_SECRET ==> Ok(name') == Reopened(name) && name' != name)
  {
    var http := s.config.value.http;
    var w := Unwrapped(env.cipher, http.storedUsername, 1);
    OneUnwrap(env.cipher, http.storedUsername);
    ExportsBlank(env, s, 1);
    ExportsUnwrap(env, s, 1);
    DecryptOfEncrypted(env.cipher, http.storedUsername, http.username);
    CutIsPlain(http.username);
  }

  /** What the codec leaves of a plaintext is a plaintext. */
  lemma CutIsPlain(p: Bytes)
    requires !IsEncrypted(p) && |p| > MAX_SECRET && Reopened(p).Ok?
    ensures !IsEncrypted(Reopened(p).value) && Reopened(p).value != p
    ensures Reopened(p).value == [] <==> |p| % UINT16 == 0
  {
    ReopenedWhole(p);
    assert |Reopened(p).value| == |p| % UINT16;
    assert forall i :: 0 <= i < |Reopened(p).value| ==> Reopened(p).value[i] == p[i];
  }

  /** A web address that is the ciphertext of another address is replaced by that other address. */
  lemma CiphertextAsPlaintextIsLost(inner: Bytes)
    requires 0 < |inner| <= MAX_SECRET && !IsEncrypted(inner)
    ensures var url := Encrypted(TRANSPARENT, [], inner);
            && SecureRuntime(TRANSPARENT, url, [], url) == inner != url
            && !SurvivesWithFallback(TRANSPARENT, url)
  {
    TransparentIsLawful();
    RoundTripBound(TRANSPARENT, [], inner);
    DecryptOfEncrypted(TRANSPARENT, Encrypted(TRANSPARENT, [], inner), inner);
  }

  // ---------------------------------------------------------------- reading back

  predicate FieldsReadable(c: Primitives, cfg: ConfigState) {
    && Decrypt(c, cfg.http.storedUrl) != Panic
    && Decrypt(c, cfg.http.storedUsername) != Panic
    && Decrypt(c, cfg.http.storedPassword) != Panic
    && Decrypt(c, cfg.storedHostKey) != Panic
  }

  predicate GroupsOpened(cfg: ConfigState) {
    forall g :: g in cfg.groups ==> Opened(cfg.groups[g])
  }

  /** The length wraps the slice bound when the secret is encrypted and decrypted again. */
  predicate Wraps(p: Bytes) {
    |p| % UINT16 > MAX_SECRET
  }

  /** A key that has no stored form is encrypted anew by the next load. */
  predicate KeysReopen(users: map<string, UserState>) {
    forall l :: l in users && users[l].storedPubKey == [] ==> !Wraps(users[l].pubkey)
  }

  /**
    The server can load a document it wrote itself exactly if no group mapping failed to open, which
    was written as null, and none of the four stored secrets and no key without a stored form panics.
    */
  lemma OwnDocumentLoads(env: Env, s: ServerState)
    requires env.Lawful() && StateInv(env, s) && s.config.Some?
    ensures LoadSafe(env, s, DocOf(s.config.value))
       <==> && GroupsOpened(s.config.value) && FieldsReadable(env.cipher, s.config.value)
            && KeysReopen(s.Users())
  {
    var cfg := s.config.value;
    var doc := DocOf(cfg);
    NullsAreUnopened(cfg);
    if GroupsOpened(cfg) {
      forall l | l in doc.users
        ensures UserSafe(env, doc, doc.users[l], s.User(l)) <==> CredentialsSafe(env.cipher, doc.users[l], s.User(l))
      {
        OpenedAreUsable(env, cfg);
      }
      forall l | l in doc.users
        ensures CredentialsSafe(env.cipher, doc.users[l], s.User(l))
           <==> (s.Users()[l].storedPubKey == [] ==> !Wraps(s.Users()[l].pubkey))
      {
        OwnCredentialsSafe(env, l, s.Users()[l]);
      }
    }
  }

  lemma NullsAreUnopened(cfg: ConfigState)
    ensures (forall g :: g in cfg.groups ==> NoNulls(DocOf(cfg).groups[g])) <==> GroupsOpened(cfg)
  {
    forall g | g in cfg.groups
      ensures NoNulls(DocOf(cfg).groups[g]) <==> Opened(cfg.groups[g])
    {
      assert forall a :: a in cfg.groups[g].mapping ==>
        (DocOf(cfg).groups[g].mapping[a].Some? <==> cfg.groups[g].mapping[a].Some?);
    }
  }

  lemma OpenedAreUsable(env: Env, cfg: ConfigState)
    requires ConfigInv(env, cfg) && GroupsOpened(cfg)
    ensures forall g :: g in cfg.groups ==> NoNulls(DocOf(cfg).groups[g]) && AllUsable(env, DocOf(cfg).groups[g])
  {
    NullsAreUnopened(cfg);
    forall g | g in cfg.groups
      ensures AllUsable(env, DocOf(cfg).groups[g])
    {
      assert GroupInv(env, cfg.groups[g]);
    }
  }

  lemma OwnCredentialsSafe(env: Env, login: string, u: UserState)
    requires UserInv(env, login, u)
    ensures CredentialsSafe(env.cipher, UserDocOf(u), Some(u)) <==> (u.storedPubKey == [] ==> !Wraps(u.pubkey))
  {
  }

  /** With readable secrets and keys that fit the codec, only the groups matter. */
  lemma ReadableDocumentLoads(env: Env, s: ServerState)
    requires env.Lawful() && StateInv(env, s) && s.config.Some?
    requires FieldsReadable(env.cipher, s.config.value) && KeysFit(s.Users())
    ensures LoadSafe(env, s, DocOf(s.config.value)) <==> GroupsOpened(s.config.value)
  {
    ShortKeysReopen(s.Users());
    OwnDocumentLoads(env, s);
  }

  lemma ShortKeysReopen(users: map<string, UserState>)
    requires KeysFit(users)
    ensures KeysReopen(users)
  {
  }

  predicate SecretsReopen(cfg: ConfigState) {
    !Wraps(cfg.http.url) && !Wraps(cfg.http.username) && !Wraps(cfg.http.password) && !Wraps(cfg.hostKey)
  }

  /**
    The file that a load has just saved can be loaded again, in place or after a restart, exactly if
    every group mapping opened and no length of a web secret or the host key wraps.
    */
  lemma SavedDocumentLoads(env: Env, s: ServerState, doc: ConfigDoc, s': ServerState)
    requires env.Lawful() && StateInv(env, s) && LoadSafe(env, s, doc) && Loaded(env, s, doc, s')
    ensures var cfg := s'.config.value;
            && (LoadSafe(env, s', DocOf(cfg)) <==> GroupsOpened(cfg) && SecretsReopen(cfg))
            && (LoadSafe(env, EMPTY, DocOf(cfg)) <==> GroupsOpened(cfg) && SecretsReopen(cfg))
  {
    var c, cfg := env.cipher, s'.config.value;
    LoadKeepsInv(env, s, doc, s');
    OwnDocumentLoads(env, s');
    RestartLoads(env, s');
    LoadedKeysReopen(env, s, doc, s');
    LoadedFieldReadable(c, doc.http.url, cfg.http.url, cfg.http.storedUrl);
    LoadedFieldReadable(c, doc.http.username, cfg.http.username, cfg.http.storedUsername);
    LoadedFieldReadable(c, doc.http.password, cfg.http.password, cfg.http.storedPassword);
    LoadedFieldReadable(c, doc.hostKey, cfg.hostKey, cfg.storedHostKey);
  }

  /** After a restart there is no old user to fall back to, so a blank stored form is just blank. */
  lemma RestartLoads(env: Env, s: ServerState)
    requires env.Lawful() && StateInv(env, s) && s.config.Some?
    ensures LoadSafe(env, EMPTY, DocOf(s.config.value))
       <==> GroupsOpened(s.config.value) && FieldsReadable(env.cipher, s.config.value)
  {
    var cfg := s.config.value;
    NullsAreUnopened(cfg);
    if GroupsOpened(cfg) {
      OpenedAreUsable(env, cfg);
      forall l | l in cfg.users
        ensures CredentialsSafe(env.cipher, DocOf(cfg).users[l], None)
      {
        assert UserInv(env, l, cfg.users[l]);
      }
    }
  }

  lemma LoadedKeysReopen(env: Env, s: ServerState, doc: ConfigDoc, s': ServerState)
    requires Loaded(env, s, doc, s')
    ensures KeysReopen(s'.Users())
  {
    forall l | l in s'.Users() && s'.Users()[l].storedPubKey == []
      ensures !Wraps(s'.Users()[l].pubkey)
    {
      LoadedKeyIsNone(env, s, doc, s', l);
    }
  }

  lemma LoadedKeyIsNone(env: Env, s: ServerState, doc: ConfigDoc, s': ServerState, login: string)
    requires login in s'.Users() && s'.Users()[login].storedPubKey == []
    ensures Loaded(env, s, doc, s') ==> s'.Users()[login].pubkey == []
  {
    if Loaded(env, s, doc, s') {
      LoadedUser(env, s, doc, s', login);
      BlankKeyIsNone(env.cipher, doc.users[login], s.User(login), s'.Users()[login]);
    }
  }

  /** A load leaves no stored form only if there is no key. */
  lemma BlankKeyIsNone(c: Primitives, doc: UserDoc, prev: Option<UserState>, u: UserState)
    requires CredentialsLoaded(c, doc, prev, u) && u.storedPubKey == []
    ensures u.pubkey == []
  {
    BlankSourceIsBlank(c, PubKeySource(doc, prev), u.storedPubKey);
  }

  lemma BlankSourceIsBlank(c: Primitives, src: Source, stored: Bytes)
    requires SourceStored(c, src, stored) && stored == []
    ensures src == Keep([])
  {
    assert forall p: Bytes :: Encrypts(c, stored, p) ==> IsEncrypted(stored);
  }

  lemma LoadedFieldReadable(c: Primitives, json: Bytes, runtime: Bytes, stored: Bytes)
    requires c.Lawful() && Decrypt(c, json) != Panic && SecureStored(c, json, runtime, stored)
    ensures Decrypt(c, stored) != Panic <==> !Wraps(runtime)
  {
    if runtime != [] {
      DecryptOfEncrypted(c, stored, runtime);
    }
  }

  /** An export after a load panics exactly if the length of the web user name wraps. */
  lemma ExportSafeExactly(env: Env, s: ServerState, doc: ConfigDoc, s': ServerState)
    requires env.Lawful() && LoadSafe(env, s, doc) && Loaded(env, s, doc, s')
    ensures ExportSafe(env, s') <==> |s'.config.value.http.username| % 65536 <= 65533
  {
    var http := s'.config.value.http;
    LoadedFieldReadable(env.cipher, doc.http.username, http.username, http.storedUsername);
  }

  /** A plaintext web address whose length wraps is loaded and saved, and then the saved file panics. */
  lemma WrappedAddressIsUnreadable(env: Env, s: ServerState, doc: ConfigDoc, s': ServerState)
    requires env.Lawful() && StateInv(env, s) && LoadSafe(env, s, doc) && Loaded(env, s, doc, s')
    requires !IsEncrypted(doc.http.url) && |doc.http.url| % UINT16 == 65534
    ensures !LoadSafe(env, s', DocOf(s'.config.value)) && !LoadSafe(env, EMPTY, DocOf(s'.config.value))
  {
    SavedDocumentLoads(env, s, doc, s');
  }
}
