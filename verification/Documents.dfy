/**
  What a load makes of a document, in terms of what is written in it and of the state before: who can
  log in with what, from where, and to which directories; and what is then written to the file.
  */
module Documents {
  import opened Wrappers
  import opened Strings
  import opened Cipher
  import opened IpFilter
  import opened FilterLists
  import opened ConfigModel
  import opened ConfigSpec
  import opened ConfigTheorems
  import opened ConfigReload

  /** A load of the document that takes a consistent server from `s` to `s'`. */
  ghost predicate Loads(env: Env, s: ServerState, doc: ConfigDoc, s': ServerState) {
    env.Lawful() && StateInv(env, s) && LoadSafe(env, s, doc) && Loaded(env, s, doc, s')
  }

  /** The text is a ciphertext by its prefix. */
  predicate Sealed(t: Bytes) {
    AsText(t) == "$e$3$"
  }

  /** The text is "-". */
  predicate Dash(t: Bytes) {
    t == [0x2D]
  }

  // ---------------------------------------------------------------- passwords

  /** What becomes of the password that the document has for a login, given the login's old user. */
  ghost predicate PasswordFollows(c: Primitives, t: Bytes, prev: Option<UserState>, u: UserState) {
    // blank: none, or that of the old user, in its stored form if it has one
    && (t == [] && prev.None? ==> u.storedPassword == [] && u.password == [])
    && (t == [] && prev.Some? ==> u.password == prev.value.password)
    && (t == [] && prev.Some? && prev.value.storedPassword != [] ==> u.storedPassword == prev.value.storedPassword)
    && (t == [] && prev.Some? && prev.value.storedPassword == [] ==>
          if u.password == [] then u.storedPassword == [] else Encrypts(c, u.storedPassword, u.password))
    // "-": removed
    && (Dash(t) && prev.Some? ==> u.storedPassword == [] && u.password == [])
    // plaintext: encrypted, and cut to what the codec keeps of it
    && (t != [] && !Sealed(t) && !(Dash(t) && prev.Some?) ==>
          Encrypts(c, u.storedPassword, t) && KeptOf(t, u.password))
    // ciphertext: kept, and decrypted if that succeeds
    && (Sealed(t) ==>
          u.storedPassword == t && u.password == match Decrypt(c, t) case Ok(d) => d case _ => [])
  }

  /** `kept` is what the codec keeps of `t`. */
  predicate KeptOf(t: Bytes, kept: Bytes) {
    |t| % 65536 <= 65533 && kept == t[..|t| % 65536]
  }

  lemma KeptWhole(t: Bytes, kept: Bytes)
    requires KeptOf(t, kept) && |t| <= 65533
    ensures kept == t
  {
  }

  lemma PasswordRule(c: Primitives, doc: UserDoc, prev: Option<UserState>, u: UserState)
    requires c.Lawful() && CredentialsSafe(c, doc, prev) && CredentialsLoaded(c, doc, prev, u)
    requires prev.Some? ==> PasswordForm(c, prev.value.storedPassword, prev.value.password)
    ensures PasswordFollows(c, doc.password, prev, u)
  {
    PrefixIsText(doc.password);
    SourceReopens(c, PasswordSource(doc, prev), u.storedPassword);
    if prev.Some? {
      ReopenedWhole(prev.value.password);
    }
  }

  /** For every login of the document: the rule above, and three of its cases by themselves. */
  lemma PasswordOutcome(env: Env, s: ServerState, doc: ConfigDoc, s': ServerState, login: string)
    requires Loads(env, s, doc, s') && login in doc.users
    ensures login in s'.Users()
    ensures var (t, prev, u) := (doc.users[login].password, s.User(login), s'.Users()[login]);
            && PasswordFollows(env.cipher, t, prev, u)
            && (Dash(t) && prev.Some? ==>
                  u.storedPassword == [] && u.password == [] && forall q :: PasswordLogin(s', login, q) == None)
            && (t == [] && prev.Some? && prev.value.storedPassword != [] ==>
                  u.storedPassword == prev.value.storedPassword)
            && (0 < |t| <= 65533 && !Sealed(t) && !(Dash(t) && prev.Some?) ==> u.password == t)
  {
    BeforeLoad(env, s, doc, login);
    LoadedUser(env, s, doc, s', login);
    PasswordRule(env.cipher, doc.users[login], s.User(login), s'.Users()[login]);
    PasswordCases(env.cipher, doc.users[login].password, s.User(login), s'.Users()[login]);
    assert s'.Users()[login].password == [] ==> forall q :: PasswordLogin(s', login, q) == None;
  }

  lemma PasswordCases(c: Primitives, t: Bytes, prev: Option<UserState>, u: UserState)
    requires PasswordFollows(c, t, prev, u)
    ensures Dash(t) && prev.Some? ==> u.storedPassword == [] && u.password == []
    ensures t == [] && prev.Some? && prev.value.storedPassword != [] ==> u.storedPassword == prev.value.storedPassword
    ensures 0 < |t| <= 65533 && !Sealed(t) && !(Dash(t) && prev.Some?) ==> u.password == t
  {
    if 0 < |t| <= 65533 && !Sealed(t) && !(Dash(t) && prev.Some?) {
      KeptWhole(t, u.password);
    }
  }

  // ---------------------------------------------------------------- public keys

  /** The same for the public key: "-" is a text like any other, and one that does not decrypt is taken as it stands. */
  ghost predicate PubKeyFollows(c: Primitives, t: Bytes, prev: Option<UserState>, u: UserState) {
    && (t == [] && prev.None? ==> u.storedPubKey == [] && u.pubkey == [])
    && (t == [] && prev.Some? && prev.value.storedPubKey != [] ==>
          u.storedPubKey == prev.value.storedPubKey && u.pubkey == prev.value.pubkey)
    && (t == [] && prev.Some? && prev.value.storedPubKey == [] && prev.value.pubkey == [] ==>
          u.storedPubKey == [] && u.pubkey == [])
    && (t == [] && prev.Some? && prev.value.storedPubKey == [] && prev.value.pubkey != [] ==>
          Encrypts(c, u.storedPubKey, prev.value.pubkey) && KeptOf(prev.value.pubkey, u.pubkey))
    && (t != [] && !Sealed(t) ==> Encrypts(c, u.storedPubKey, t) && KeptOf(t, u.pubkey))
    && (Sealed(t) ==> u.storedPubKey == t && u.pubkey == match Decrypt(c, t) case Ok(d) => d case _ => t)
  }

  lemma PubKeyRule(c: Primitives, doc: UserDoc, prev: Option<UserState>, u: UserState)
    requires c.Lawful() && CredentialsSafe(c, doc, prev) && CredentialsLoaded(c, doc, prev, u)
    requires prev.Some? ==> PubKeyForm(c, prev.value.storedPubKey, prev.value.pubkey)
    ensures PubKeyFollows(c, doc.pubkey, prev, u)
  {
    PrefixIsText(doc.pubkey);
    SourceReopens(c, PubKeySource(doc, prev), u.storedPubKey);
  }

  lemma PubKeyOutcome(env: Env, s: ServerState, doc: ConfigDoc, s': ServerState, login: string)
    requires Loads(env, s, doc, s') && login in doc.users
    ensures login in s'.Users() && PubKeyFollows(env.cipher, doc.users[login].pubkey, s.User(login), s'.Users()[login])
  {
    BeforeLoad(env, s, doc, login);
    LoadedUser(env, s, doc, s', login);
    PubKeyRule(env.cipher, doc.users[login], s.User(login), s'.Users()[login]);
  }

  // ---------------------------------------------------------------- who is set up

  /** A user is set up exactly if it has a credential after the load. */
  lemma SetUpExactly(env: Env, s: ServerState, doc: ConfigDoc, s': ServerState, login: string)
    requires Loads(env, s, doc, s') && login in doc.users
    ensures login in s'.Users()
    ensures var u := s'.Users()[login];
            if u.storedPassword == [] && u.storedPubKey == [] then
              u.login == "" && u.password == [] && u.pubkey == [] && u.mapping == map[]
            else
              && u.login == login
              && SetUp(env, UserGroups(env, s'.config.value.groups, doc.users[login]), login, doc.users[login], u)
  {
    BeforeLoad(env, s, doc, login);
    LoadedUser(env, s, doc, s', login);
    LoadedForms(env, s'.config.value.groups, login, doc.users[login], s.User(login), s'.Users()[login]);
  }

  // ---------------------------------------------------------------- verdicts on credentials

  /** Which passwords are accepted for a login after the load. */
  lemma PasswordVerdict(env: Env, s: ServerState, doc: ConfigDoc, s': ServerState, login: string, q: Bytes)
    requires Loads(env, s, doc, s')
    ensures login !in doc.users ==> PasswordLogin(s', login, q) == None
    ensures login in doc.users ==>
              var t, prev := doc.users[login].password, s.User(login);
              var accepted := PasswordLogin(s', login, q) == Some(login);
              && (accepted || PasswordLogin(s', login, q) == None)
              && (t == [] && prev.None? ==> !accepted)
              && (t == [] && prev.Some? ==> (accepted <==> q != [] && q == prev.value.password))
              && (Dash(t) && prev.Some? ==> !accepted)
              && (0 < |t| <= 65533 && !Sealed(t) && !(Dash(t) && prev.Some?) ==> (accepted <==> q == t))
              && (Sealed(t) ==> (accepted <==> q != [] && Decrypt(env.cipher, t) == Ok(q)))
  {
    if login in doc.users {
      PasswordOutcome(env, s, doc, s', login);
      SetUpExactly(env, s, doc, s', login);
    } else {
      assert login !in s'.Users();
    }
  }

  /** A fingerprint is accepted exactly if a user of the document has a key of it after the load, and as such a user. */
  lemma KeyVerdict(env: Env, s: ServerState, doc: ConfigDoc, s': ServerState, fp: string)
    requires Loads(env, s, doc, s')
    ensures s'.Users().Keys == doc.users.Keys && KeyLogins(env, s', fp)
  {
    LoadedUserTable(env, s, doc, s');
    IndexVerdict(env, s', fp);
  }

  /** Somebody is let in by the fingerprint if any user has a key of it, and who is let in has one. */
  ghost predicate KeyLogins(env: Env, s: ServerState, fp: string) {
    && (KeyLogin(s, fp).Some? <==> exists l :: l in s.Users() && env.fingerprint(s.Users()[l].pubkey) == Some(fp))
    && (KeyLogin(s, fp).Some? ==>
          && KeyLogin(s, fp).value in s.Users()
          && env.fingerprint(s.Users()[KeyLogin(s, fp).value].pubkey) == Some(fp))
  }

  lemma IndexVerdict(env: Env, s: ServerState, fp: string)
    requires IndexAgrees(env, s.Users(), s.index)
    ensures KeyLogins(env, s, fp)
  {
    if l :| l in s.Users() && env.fingerprint(s.Users()[l].pubkey) == Some(fp) {
      assert fp in s.index;
    }
  }

  lemma LoadedUserTable(env: Env, s: ServerState, doc: ConfigDoc, s': ServerState)
    requires Loaded(env, s, doc, s')
    ensures s'.Users().Keys == doc.users.Keys && IndexAgrees(env, s'.Users(), s'.index)
  {
  }

  /** So the owner of a key that nobody shares is let in by it. */
  lemma WrittenKeyAccepted(env: Env, s: ServerState, doc: ConfigDoc, s': ServerState, login: string, fp: string)
    requires Loads(env, s, doc, s') && login in doc.users
    requires var t := doc.users[login].pubkey; 0 < |t| <= 65533 && !Sealed(t) && env.fingerprint(t) == Some(fp)
    requires forall l :: l in doc.users && l != login ==>
               l in s'.Users() && env.fingerprint(s'.Users()[l].pubkey) != Some(fp)
    ensures KeyLogin(s', fp) == Some(login)
  {
    PubKeyOutcome(env, s, doc, s', login);
    KeptWhole(doc.users[login].pubkey, s'.Users()[login].pubkey);
    KeyVerdict(env, s, doc, s', fp);
  }

  // ---------------------------------------------------------------- web secrets

  /** What becomes of a text that may fall back to an old value: the runtime value and its stored form. */
  ghost predicate SecretFollows(c: Primitives, t: Bytes, prev: Bytes, runtime: Bytes, stored: Bytes) {
    && (t == [] ==> runtime == prev)
    && (t != [] && !Sealed(t) ==> runtime == t)
    && (Sealed(t) ==> runtime == match Decrypt(c, t) case Ok(d) => if d == [] then prev else d case _ => t)
    && (if runtime == [] then stored == t && (t == [] || Sealed(t)) else Encrypts(c, stored, runtime))
  }

  lemma SecretRule(c: Primitives, t: Bytes, prev: Bytes, runtime: Bytes, stored: Bytes)
    requires Decrypt(c, t) != Panic && runtime == SecureRuntime(c, t, [], prev) && SecureStored(c, t, runtime, stored)
    ensures SecretFollows(c, t, prev, runtime, stored)
  {
    PrefixIsText(t);
  }

  /** The web address and credentials fall back to the old ones, the host key to nothing; there is no token. */
  lemma SecretsOutcome(env: Env, s: ServerState, doc: ConfigDoc, s': ServerState)
    requires Loads(env, s, doc, s')
    ensures var (c, d, h) := (env.cipher, doc.http, s'.config.value.http);
            var (url, name, password) := if s.config.None? then ([], [], []) else
              (s.config.value.http.url, s.config.value.http.username, s.config.value.http.password);
            && SecretFollows(c, d.url, url, h.url, h.storedUrl)
            && SecretFollows(c, d.username, name, h.username, h.storedUsername)
            && SecretFollows(c, d.password, password, h.password, h.storedPassword)
            && SecretFollows(c, doc.hostKey, [], s'.config.value.hostKey, s'.config.value.storedHostKey)
            && h.token == ""
  {
    var (c, d, h) := (env.cipher, doc.http, s'.config.value.http);
    var prev := OldHttp(s);
    SecretRule(c, d.url, if prev.Some? then prev.value.url else [], h.url, h.storedUrl);
    SecretRule(c, d.username, if prev.Some? then prev.value.username else [], h.username, h.storedUsername);
    SecretRule(c, d.password, if prev.Some? then prev.value.password else [], h.password, h.storedPassword);
    SecretRule(c, doc.hostKey, [], s'.config.value.hostKey, s'.config.value.storedHostKey);
  }

  /** The administrator of a document with plaintext credentials logs in with these, and with no others. */
  lemma WebVerdict(env: Env, s: ServerState, doc: ConfigDoc, s': ServerState,
                   username: Bytes, password: Bytes, issued: string)
    requires Loads(env, s, doc, s')
    requires doc.http.username != [] && !Sealed(doc.http.username)
    requires doc.http.password != [] && !Sealed(doc.http.password)
    ensures GoodLogin(s', Login(username, password, issued)) <==>
              username == doc.http.username && password == doc.http.password
  {
    SecretsOutcome(env, s, doc, s');
  }

  // ---------------------------------------------------------------- addresses

  /** An entry of the written list stands for the address. */
  ghost predicate Listed(p: EntryParser, list: string, ip: Address) {
    list != "" && SomeEntryAccepts(p, Split(list, ','), ip)
  }

  ghost predicate EntryReads(p: EntryParser, raw: string) {
    var s := p.trim(raw);
    s != "" && if '/' in s then p.cidr(s).Some? else p.address(s).Some?
  }

  /** No entry of the written list can be read. */
  ghost predicate NothingListed(p: EntryParser, list: string) {
    list == "" || forall raw :: raw in Split(list, ',') ==> !EntryReads(p, raw)
  }

  lemma {:induction false} PiecesRead(p: EntryParser, pieces: seq<string>)
    ensures ParsedPieces(p, pieces) == [] <==> forall raw :: raw in pieces ==> !EntryReads(p, raw)
  {
    if |pieces| > 0 {
      var init, last := pieces[..|pieces| - 1], pieces[|pieces| - 1];
      PiecesRead(p, init);
      EntryRead(p, last);
      assert pieces == init + [last];
    }
  }

  lemma EntryRead(p: EntryParser, raw: string)
    ensures ParsedEntry(p, raw).Some? <==> EntryReads(p, raw)
  {
  }

  /** A parsed list in terms of the written one. */
  lemma ListMeans(p: EntryParser, list: string, ip: Address)
    requires p.Lawful()
    ensures AnyContains(Parsed(p, list), ip) <==> Listed(p, list, ip)
    ensures |Parsed(p, list)| == 0 <==> NothingListed(p, list)
  {
    ParsedAccepts(p, list, ip);
    PiecesRead(p, Split(list, ','));
  }

  /** Which addresses may use the web pages after the load. */
  lemma WebAddressVerdict(env: Env, s: ServerState, doc: ConfigDoc, s': ServerState, ip: Address)
    requires Loads(env, s, doc, s')
    ensures var f, d := s'.config.value.http.filter, doc.http.filter;
            Verdict(f.whitelist, f.blacklist, ip) <==>
            && !Listed(env.parser, d.blacklist, ip)
            && (NothingListed(env.parser, d.whitelist) || Listed(env.parser, d.whitelist, ip))
  {
    ListMeans(env.parser, doc.http.filter.blacklist, ip);
    ListMeans(env.parser, doc.http.filter.whitelist, ip);
  }

  /** The document has the group, and the user names it. */
  ghost predicate NamedGroup(env: Env, doc: ConfigDoc, d: UserDoc, g: string) {
    g in doc.groups && g != "" && Named(env.parser.trim, Split(d.groups, ','), g)
  }

  ghost predicate GroupBars(env: Env, doc: ConfigDoc, d: UserDoc, ip: Address) {
    exists g :: NamedGroup(env, doc, d, g) && Listed(env.parser, doc.groups[g].filter.blacklist, ip)
  }

  ghost predicate GroupAdmits(env: Env, doc: ConfigDoc, d: UserDoc, ip: Address) {
    exists g :: NamedGroup(env, doc, d, g) && Listed(env.parser, doc.groups[g].filter.whitelist, ip)
  }

  ghost predicate NoGroupList(env: Env, doc: ConfigDoc, d: UserDoc) {
    forall g :: NamedGroup(env, doc, d, g) ==> NothingListed(env.parser, doc.groups[g].filter.whitelist)
  }

  /**
    From which addresses a user that is set up may log in after the load: listed in no blacklist of
    the user or a group it names, and in one of their whitelists unless there is nothing in any.
    */
  lemma AddressVerdict(env: Env, s: ServerState, doc: ConfigDoc, s': ServerState, login: string, ip: Address)
    requires Loads(env, s, doc, s') && login in doc.users && login in s'.Users()
    requires s'.Users()[login].storedPassword != [] || s'.Users()[login].storedPubKey != []
    ensures var d, f := doc.users[login], s'.Users()[login].filter;
            Verdict(f.whitelist, f.blacklist, ip) <==>
            && !Listed(env.parser, d.filter.blacklist, ip) && !GroupBars(env, doc, d, ip)
            && ((NothingListed(env.parser, d.filter.whitelist) && NoGroupList(env, doc, d))
                || Listed(env.parser, d.filter.whitelist, ip) || GroupAdmits(env, doc, d, ip))
  {
    var groups, d, u := s'.config.value.groups, doc.users[login], s'.Users()[login];
    SetUpExactly(env, s, doc, s', login);
    GroupsAreParsed(env, s, doc, s');
    UserVerdict(env, groups, login, d, u, ip);
    ListMeans(env.parser, d.filter.blacklist, ip);
    ListMeans(env.parser, d.filter.whitelist, ip);
    GroupListsMean(env, doc, groups, d, ip);
  }

  lemma GroupsAreParsed(env: Env, s: ServerState, doc: ConfigDoc, s': ServerState)
    requires Loaded(env, s, doc, s')
    ensures GroupFilters(env, doc, s'.config.value.groups) && GroupsParsed(env, s'.config.value.groups)
  {
    forall g | g in doc.groups
      ensures s'.config.value.groups[g].filter == ParsedFilter(env.parser, doc.groups[g].filter)
    {
      LoadedGroup(env, s, doc, s', g);
    }
  }

  /** The filters of the loaded groups are those of the document. */
  ghost predicate GroupFilters(env: Env, doc: ConfigDoc, groups: map<string, GroupState>) {
    && groups.Keys == doc.groups.Keys
    && forall g :: g in doc.groups ==> groups[g].filter == ParsedFilter(env.parser, doc.groups[g].filter)
  }

  lemma GroupListsMean(env: Env, doc: ConfigDoc, groups: map<string, GroupState>, d: UserDoc, ip: Address)
    requires env.parser.Lawful() && GroupFilters(env, doc, groups)
    ensures MemberBlacklists(env, groups, d, ip) <==> GroupBars(env, doc, d, ip)
    ensures MemberWhitelists(env, groups, d, ip) <==> GroupAdmits(env, doc, d, ip)
    ensures NoMemberWhitelist(env, groups, d) <==> NoGroupList(env, doc, d)
  {
    forall g | g in doc.groups
      ensures Member(env, groups, d, g) <==> NamedGroup(env, doc, d, g)
      ensures AnyContains(groups[g].filter.blacklist, ip) <==> Listed(env.parser, doc.groups[g].filter.blacklist, ip)
      ensures AnyContains(groups[g].filter.whitelist, ip) <==> Listed(env.parser, doc.groups[g].filter.whitelist, ip)
      ensures |groups[g].filter.whitelist| == 0 <==> NothingListed(env.parser, doc.groups[g].filter.whitelist)
    {
      ListMeans(env.parser, doc.groups[g].filter.blacklist, ip);
      ListMeans(env.parser, doc.groups[g].filter.whitelist, ip);
    }
  }

  // ---------------------------------------------------------------- directories

  /** A group that the user names maps the alias. */
  ghost predicate GroupMaps(env: Env, doc: ConfigDoc, d: UserDoc, g: string, a: string) {
    NamedGroup(env, doc, d, g) && a in doc.groups[g].mapping && doc.groups[g].mapping[a].Some?
  }

  /** One does so in exec mode. */
  ghost predicate GroupRuns(env: Env, doc: ConfigDoc, d: UserDoc, g: string, a: string) {
    GroupMaps(env, doc, d, g, a) && doc.groups[g].mapping[a].value.mode == Exec
  }

  /** The user's own mapping of the alias is an exec one or leads to a directory that opens. */
  predicate OwnWorks(env: Env, d: UserDoc, a: string) {
    a in d.mapping && (d.mapping[a].mode == Exec || env.canOpen(d.mapping[a].path))
  }

  /**
    Which directory an alias of a user that is set up leads to after the load: its own if that works,
    else that of a group it names, an exec one if there is one, else none. Just the exec ones have no handle.
    */
  lemma MappingOutcome(env: Env, s: ServerState, doc: ConfigDoc, s': ServerState, login: string, a: string)
    requires Loads(env, s, doc, s') && login in doc.users && login in s'.Users()
    requires s'.Users()[login].storedPassword != [] || s'.Users()[login].storedPubKey != []
    ensures var d, m := doc.users[login], s'.Users()[login].mapping;
            Leads(env, doc, d, m, a)
  {
    var groups, d, u := s'.config.value.groups, doc.users[login], s'.Users()[login];
    SetUpExactly(env, s, doc, s', login);
    EntriesLoaded(env, s, doc, s');
    SetUpMapping(env, doc, groups, login, d, u, a);
  }

  /** The entry that the document has for the alias of a user. */
  ghost predicate Leads(env: Env, doc: ConfigDoc, d: UserDoc, m: map<string, MapEntry>, a: string) {
    && (a in m <==> OwnWorks(env, d, a) || exists g :: GroupMaps(env, doc, d, g, a))
    && (OwnWorks(env, d, a) ==> m[a].path == d.mapping[a].path && m[a].mode == d.mapping[a].mode)
    && (a in m && !OwnWorks(env, d, a) ==>
          && (exists g :: GroupMaps(env, doc, d, g, a)
                          && doc.groups[g].mapping[a].value == MappingDoc(m[a].path, m[a].mode))
          && (m[a].mode == Exec <==> exists g :: GroupRuns(env, doc, d, g, a)))
    && (a in m ==> (m[a].root == null <==> m[a].mode == Exec) && (m[a].root != null ==> m[a].root.path == m[a].path))
  }

  lemma SetUpMapping(env: Env, doc: ConfigDoc, groups: map<string, GroupState>, login: string, d: UserDoc,
                     u: UserState, a: string)
    requires GroupEntries(doc, groups) && SetUp(env, UserGroups(env, groups, d), login, d, u)
    ensures Leads(env, doc, d, u.mapping, a)
  {
    var gs := UserGroups(env, groups, d);
    RuntimeMappingClosedForm(env, gs, login, d, u, a);
    MembersAre(env, groups, d, gs);
    MapsMeans(env, doc, groups, d, gs, a);
    ExecMeans(env, doc, groups, d, gs, a);
    OwnMeans(env, d, a);
    if a in u.mapping && !OwnWorks(env, d, a) {
      var i :| (LastExec(gs, i, a) || FirstPlain(gs, i, a)) && u.mapping[a] == EntryAt(gs, i, a);
      GroupOfEntry(env, doc, groups, d, gs, i, a);
    }
  }

  lemma OwnMeans(env: Env, d: UserDoc, a: string)
    ensures OwnApplies(env, d.mapping, a) <==> OwnWorks(env, d, a)
  {
  }

  /** The groups have the mappings of the document, as far as they opened. */
  ghost predicate GroupEntries(doc: ConfigDoc, groups: map<string, GroupState>) {
    && groups.Keys == doc.groups.Keys
    && forall g :: g in groups ==>
         && groups[g].mapping.Keys == doc.groups[g].mapping.Keys
         && forall a :: a in groups[g].mapping && groups[g].mapping[a].Some? ==>
              var e := groups[g].mapping[a].value;
              doc.groups[g].mapping[a] == Some(MappingDoc(e.path, e.mode))
  }

  lemma EntriesLoaded(env: Env, s: ServerState, doc: ConfigDoc, s': ServerState)
    requires Loaded(env, s, doc, s')
    ensures GroupEntries(doc, s'.config.value.groups)
  {
    forall g | g in doc.groups
      ensures var m, n := s'.config.value.groups[g].mapping, doc.groups[g].mapping;
              && m.Keys == n.Keys
              && forall a :: a in m && m[a].Some? ==> n[a] == Some(MappingDoc(m[a].value.path, m[a].value.mode))
    {
      LoadedGroup(env, s, doc, s', g);
    }
  }

  lemma GroupOfEntry(env: Env, doc: ConfigDoc, groups: map<string, GroupState>, d: UserDoc, gs: seq<GroupState>,
                     i: int, a: string)
    requires GroupEntries(doc, groups) && Maps(gs, i, a)
    requires forall st :: st in gs ==> MemberState(env, groups, d, st)
    ensures exists g :: GroupMaps(env, doc, d, g, a)
                        && doc.groups[g].mapping[a].value == MappingDoc(EntryAt(gs, i, a).path, EntryAt(gs, i, a).mode)
  {
    assert gs[i] in gs;
    var g :| Member(env, groups, d, g) && groups[g] == gs[i];
    assert GroupMaps(env, doc, d, g, a);
  }

  /** An alias is mapped by one of the states exactly if it is by a group that the user names. */
  lemma MapsMeans(env: Env, doc: ConfigDoc, groups: map<string, GroupState>, d: UserDoc, gs: seq<GroupState>, a: string)
    requires GroupEntries(doc, groups) && forall i :: 0 <= i < |gs| ==> Opened(gs[i])
    requires forall st :: st in gs ==> MemberState(env, groups, d, st)
    requires forall g :: Member(env, groups, d, g) ==> groups[g] in gs
    ensures (exists i :: Maps(gs, i, a)) <==> exists g :: GroupMaps(env, doc, d, g, a)
  {
    if i :| Maps(gs, i, a) {
      GroupOfEntry(env, doc, groups, d, gs, i, a);
    }
    if g :| GroupMaps(env, doc, d, g, a) {
      var i := EntryOfGroup(env, doc, groups, d, gs, g, a);
    }
  }

  lemma ExecMeans(env: Env, doc: ConfigDoc, groups: map<string, GroupState>, d: UserDoc, gs: seq<GroupState>, a: string)
    requires GroupEntries(doc, groups) && forall i :: 0 <= i < |gs| ==> Opened(gs[i])
    requires forall st :: st in gs ==> MemberState(env, groups, d, st)
    requires forall g :: Member(env, groups, d, g) ==> groups[g] in gs
    ensures (exists i :: IsExec(gs, i, a)) <==> exists g :: GroupRuns(env, doc, d, g, a)
  {
    if i :| IsExec(gs, i, a) {
      GroupOfEntry(env, doc, groups, d, gs, i, a);
      var g :| GroupMaps(env, doc, d, g, a) && doc.groups[g].mapping[a].value.mode == Exec;
      assert GroupRuns(env, doc, d, g, a);
    }
    if g :| GroupRuns(env, doc, d, g, a) {
      var i := EntryOfGroup(env, doc, groups, d, gs, g, a);
      assert IsExec(gs, i, a);
    }
  }

  lemma EntryOfGroup(env: Env, doc: ConfigDoc, groups: map<string, GroupState>, d: UserDoc, gs: seq<GroupState>,
                     g: string, a: string)
    returns (i: int)
    requires GroupEntries(doc, groups) && forall k :: 0 <= k < |gs| ==> Opened(gs[k])
    requires (Member(env, groups, d, g) ==> groups[g] in gs) && GroupMaps(env, doc, d, g, a)
    ensures Maps(gs, i, a) && EntryAt(gs, i, a).mode == doc.groups[g].mapping[a].value.mode
  {
    assert Member(env, groups, d, g);
    i :| 0 <= i < |gs| && gs[i] == groups[g];
    assert Opened(gs[i]);
  }

  // ---------------------------------------------------------------- the saved file

  /** What is no credential or mapping of a group is the same in both documents. */
  predicate SameSettings(d: ConfigDoc, e: ConfigDoc) {
    && e.addr == d.addr && e.uid == d.uid && e.gid == d.gid
    && e.http.addr == d.http.addr && e.http.filter == d.http.filter
    && e.groups.Keys == d.groups.Keys && (forall g :: g in d.groups ==> e.groups[g].filter == d.groups[g].filter)
    && e.users.Keys == d.users.Keys
    && forall l :: l in d.users ==> SameUserSettings(d.users[l], e.users[l])
  }

  /** No secret stands in the clear: each is blank or a ciphertext. */
  predicate NothingInClear(d: ConfigDoc) {
    && BlankOrSealed(d.http.url) && BlankOrSealed(d.http.username) && BlankOrSealed(d.http.password)
    && BlankOrSealed(d.hostKey)
    && forall l :: l in d.users ==> BlankOrSealed(d.users[l].password) && BlankOrSealed(d.users[l].pubkey)
  }

  predicate BlankOrSealed(t: Bytes) {
    t == [] || Sealed(t)
  }

  /**
    The file that a load saves has the settings of the document, no secret in the clear, and of the
    groups' mappings those that are exec ones or opened; the others are null.
    */
  lemma SavedDocument(env: Env, s: ServerState, doc: ConfigDoc, s': ServerState)
    requires Loads(env, s, doc, s')
    ensures var d := DocOf(s'.config.value);
            && SameSettings(doc, d) && NothingInClear(d)
            && forall g :: g in doc.groups ==> SavedMappings(env, doc.groups[g], d.groups[g])
  {
    SavedUsers(env, s, doc, s');
    AllSavedWell(doc, s');
    SavedGroups(env, s, doc, s');
    SavedSecrets(env, s, doc, s');
    SavedPlainly(env, s, doc, s');
  }

  /** The settings of the two users are the same. */
  predicate SameUserSettings(u: UserDoc, v: UserDoc) {
    v.maxSessions == u.maxSessions && v.groups == u.groups && v.filter == u.filter && v.mapping == u.mapping
  }

  lemma SavedPlainly(env: Env, s: ServerState, doc: ConfigDoc, s': ServerState)
    requires Loaded(env, s, doc, s')
    ensures var d := DocOf(s'.config.value);
            && d.addr == doc.addr && d.uid == doc.uid && d.gid == doc.gid
            && d.http.addr == doc.http.addr && d.http.filter == doc.http.filter
  {
  }

  lemma SavedUsers(env: Env, s: ServerState, doc: ConfigDoc, s': ServerState)
    requires Loads(env, s, doc, s')
    ensures s'.Users().Keys == doc.users.Keys && forall l :: l in doc.users ==> SavedAt(doc, s', l)
  {
    LoadedUserTable(env, s, doc, s');
    forall l | l in doc.users
      ensures SavedAt(doc, s', l)
    {
      SavedUser(env, s, doc, s', l);
    }
  }

  predicate SavedAt(doc: ConfigDoc, s': ServerState, login: string)
    requires login in doc.users
  {
    login in s'.Users() && SavedWell(doc.users[login], UserDocOf(s'.Users()[login]))
  }

  lemma AllSavedWell(doc: ConfigDoc, s': ServerState)
    requires s'.config.Some? && s'.Users().Keys == doc.users.Keys && forall l :: l in doc.users ==> SavedAt(doc, s', l)
    ensures var users := DocOf(s'.config.value).users;
            users.Keys == doc.users.Keys && forall l :: l in doc.users ==> SavedWell(doc.users[l], users[l])
  {
    forall l | l in doc.users
      ensures SavedWell(doc.users[l], DocOf(s'.config.value).users[l])
    {
      assert SavedAt(doc, s', l);
    }
  }

  /** The settings as they were, and the credentials not in the clear. */
  predicate SavedWell(u: UserDoc, v: UserDoc) {
    SameUserSettings(u, v) && BlankOrSealed(v.password) && BlankOrSealed(v.pubkey)
  }

  lemma SavedGroups(env: Env, s: ServerState, doc: ConfigDoc, s': ServerState)
    requires Loaded(env, s, doc, s')
    ensures var groups := DocOf(s'.config.value).groups;
            groups.Keys == doc.groups.Keys
            && forall g :: g in doc.groups ==>
                 groups[g].filter == doc.groups[g].filter && SavedMappings(env, doc.groups[g], groups[g])
  {
    forall g | g in doc.groups
      ensures DocOf(s'.config.value).groups[g].filter == doc.groups[g].filter
      ensures SavedMappings(env, doc.groups[g], DocOf(s'.config.value).groups[g])
    {
      LoadedGroup(env, s, doc, s', g);
      SavedGroup(env, doc.groups[g], s'.config.value.groups[g]);
    }
  }

  lemma SavedUser(env: Env, s: ServerState, doc: ConfigDoc, s': ServerState, login: string)
    requires login in doc.users
    ensures Loads(env, s, doc, s') ==> SavedAt(doc, s', login)
  {
    if Loads(env, s, doc, s') {
      BeforeLoad(env, s, doc, login);
      LoadedUser(env, s, doc, s', login);
      var u := s'.Users()[login];
      LoadedForms(env, s'.config.value.groups, login, doc.users[login], s.User(login), u);
      PrefixIsText(u.storedPassword);
      PrefixIsText(u.storedPubKey);
    }
  }

  predicate SavedMappings(env: Env, doc: GroupDoc, d: GroupDoc) {
    forall a :: a in doc.mapping ==>
      && a in d.mapping && doc.mapping[a].Some?
      && d.mapping[a] == (var m := doc.mapping[a].value;
                          if m.mode == Exec || env.canOpen(m.path) then Some(m) else None)
  }

  lemma SavedGroup(env: Env, doc: GroupDoc, g: GroupState)
    requires GroupLoaded(env, doc, g)
    ensures GroupDocOf(g).filter == doc.filter && SavedMappings(env, doc, GroupDocOf(g))
  {
    forall a | a in doc.mapping
      ensures GroupDocOf(g).mapping[a] == (var m := doc.mapping[a].value;
                                           if m.mode == Exec || env.canOpen(m.path) then Some(m) else None)
    {
    }
  }

  lemma SavedSecrets(env: Env, s: ServerState, doc: ConfigDoc, s': ServerState)
    requires Loads(env, s, doc, s')
    ensures var cfg := s'.config.value;
            && BlankOrSealed(cfg.http.storedUrl) && BlankOrSealed(cfg.http.storedUsername)
            && BlankOrSealed(cfg.http.storedPassword) && BlankOrSealed(cfg.storedHostKey)
  {
    SecretsOutcome(env, s, doc, s');
    var cfg := s'.config.value;
    PrefixIsText(cfg.http.storedUrl);
    PrefixIsText(cfg.http.storedUsername);
    PrefixIsText(cfg.http.storedPassword);
    PrefixIsText(cfg.storedHostKey);
  }

  // ---------------------------------------------------------------- what does load

  /** The text is blank or a plaintext that the codec keeps whole. */
  predicate Unproblematic(t: Bytes) {
    |t| <= 65533 && !Sealed(t)
  }

  /** A document without ciphertexts and over-long secrets, whose groups all open, loads in any consistent state. */
  lemma PlainDocumentLoads(env: Env, s: ServerState, doc: ConfigDoc)
    requires env.Lawful() && StateInv(env, s) && KeysFit(s.Users())
    requires Unproblematic(doc.http.url) && Unproblematic(doc.http.username) && Unproblematic(doc.http.password)
    requires Unproblematic(doc.hostKey)
    requires forall l :: l in doc.users ==>
               Unproblematic(doc.users[l].password) && Unproblematic(doc.users[l].pubkey)
    requires forall g, a :: g in doc.groups && a in doc.groups[g].mapping ==>
               && doc.groups[g].mapping[a].Some?
               && (doc.groups[g].mapping[a].value.mode == Exec || env.canOpen(doc.groups[g].mapping[a].value.path))
    ensures LoadSafe(env, s, doc)
  {
    PrefixIsText(doc.http.url);
    PrefixIsText(doc.http.username);
    PrefixIsText(doc.http.password);
    PrefixIsText(doc.hostKey);
    forall g | g in doc.groups
      ensures NoNulls(doc.groups[g]) && AllUsable(env, doc.groups[g])
    {
    }
    forall l | l in doc.users
      ensures CredentialsSafe(env.cipher, doc.users[l], s.User(l))
    {
      PlainCredentialsSafe(env, s, l, doc.users[l]);
    }
  }

  lemma PlainCredentialsSafe(env: Env, s: ServerState, login: string, d: UserDoc)
    requires StateInv(env, s) && KeysFit(s.Users())
    requires Unproblematic(d.password) && Unproblematic(d.pubkey)
    ensures CredentialsSafe(env.cipher, d, s.User(login))
  {
    if s.User(login).Some? {
      assert UserInv(env, login, s.Users()[login]);
    }
    PlainSource(env.cipher, d.password, OldPassword(s.User(login)), true);
    PlainSource(env.cipher, d.pubkey, OldPubKey(s.User(login)), false);
  }

  lemma PlainSource(c: Primitives, t: Bytes, prev: Option<Credential>, removable: bool)
    requires Unproblematic(t)
    requires prev.Some? ==> |prev.value.runtime| <= 65533
    requires prev.Some? && prev.value.stored != [] ==>
               IsEncrypted(prev.value.stored) && Decrypt(c, prev.value.stored) != Panic
    ensures SourceOutcome(c, CredentialSource(t, prev, removable)) != Panic
  {
    PrefixIsText(t);
    ReopenedWhole(t);
    if prev.Some? {
      ReopenedWhole(prev.value.runtime);
    }
  }
}
