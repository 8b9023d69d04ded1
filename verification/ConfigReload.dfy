/** Loading the document that a load has just saved, and what a loaded user's filters and mapping are. */
module ConfigReload {
  import opened Wrappers
  import opened Strings
  import opened Cipher
  import opened IpFilter
  import opened FilterLists
  import opened ConfigModel
  import opened ConfigSpec
  import opened ConfigTheorems

  // ---------------------------------------------------------------- closed forms

  /**
    The runtime mapping of a user that is set up, alias by alias: the user's own entry if it takes
    effect, else the last exec entry of the groups, else their first entry, else nothing.
    */
  lemma RuntimeMappingClosedForm(env: Env, gs: seq<GroupState>, login: string, doc: UserDoc, u: UserState, a: string)
    requires SetUp(env, gs, login, doc, u)
    ensures a in u.mapping <==> OwnApplies(env, doc.mapping, a) || exists i :: Maps(gs, i, a)
    ensures a in u.mapping && OwnApplies(env, doc.mapping, a) ==> EntryDoc(u.mapping[a]) == doc.mapping[a]
    ensures a in u.mapping && !OwnApplies(env, doc.mapping, a) ==>
              exists i :: (LastExec(gs, i, a) || FirstPlain(gs, i, a)) && u.mapping[a] == EntryAt(gs, i, a)
  {
    MergeClosedForm(gs, a);
  }

  /** `g` is a loaded group that the user's CSV of groups names. */
  ghost predicate Member(env: Env, groups: map<string, GroupState>, doc: UserDoc, g: string) {
    g in groups && g != "" && Named(env.parser.trim, Split(doc.groups, ','), g)
  }

  ghost predicate GroupsParsed(env: Env, groups: map<string, GroupState>) {
    forall g :: g in groups ==> groups[g].filter == ParsedFilter(env.parser, groups[g].filter.doc)
  }

  lemma {:induction false} KnownGroups(groups: map<string, GroupState>, names: seq<string>)
    ensures forall s :: s in Known(groups, names) <==>
              exists i :: 0 <= i < |names| && names[i] in groups && groups[names[i]] == s
  {
    if |names| > 0 {
      var init := names[..|names| - 1];
      KnownGroups(groups, init);
      forall s
        ensures s in Known(groups, names) <==>
                  exists i :: 0 <= i < |names| && names[i] in groups && groups[names[i]] == s
      {
        if s in Known(groups, init) {
          var i :| 0 <= i < |init| && init[i] in groups && groups[init[i]] == s;
          assert names[i] in groups && groups[names[i]] == s;
        }
        if i :| 0 <= i < |names| && names[i] in groups && groups[names[i]] == s {
          assert i < |init| ==> init[i] in groups && groups[init[i]] == s;
        }
      }
    }
  }

  /** `state` is the state of a group that the user names. */
  ghost predicate MemberState(env: Env, groups: map<string, GroupState>, doc: UserDoc, state: GroupState) {
    exists g :: Member(env, groups, doc, g) && groups[g] == state
  }

  ghost predicate MemberWhitelists(env: Env, groups: map<string, GroupState>, doc: UserDoc, ip: Address) {
    exists g :: Member(env, groups, doc, g) && AnyContains(groups[g].filter.whitelist, ip)
  }

  ghost predicate MemberBlacklists(env: Env, groups: map<string, GroupState>, doc: UserDoc, ip: Address) {
    exists g :: Member(env, groups, doc, g) && AnyContains(groups[g].filter.blacklist, ip)
  }

  ghost predicate NoMemberWhitelist(env: Env, groups: map<string, GroupState>, doc: UserDoc) {
    forall g :: Member(env, groups, doc, g) ==> |groups[g].filter.whitelist| == 0
  }

  /**
    The verdict on an address for a user that is set up, in terms of what the document says: in no
    blacklist of the user or of a group it names, and in some whitelist unless all are empty.
    */
  lemma UserVerdict(env: Env, groups: map<string, GroupState>, login: string, doc: UserDoc, u: UserState, ip: Address)
    requires env.parser.Lawful() && GroupsParsed(env, groups)
    requires SetUp(env, UserGroups(env, groups, doc), login, doc, u)
    ensures var own := ParsedFilter(env.parser, doc.filter);
            Verdict(u.filter.whitelist, u.filter.blacklist, ip) <==>
            && !AnyContains(own.blacklist, ip) && !MemberBlacklists(env, groups, doc, ip)
            && ((|own.whitelist| == 0 && NoMemberWhitelist(env, groups, doc))
                || AnyContains(own.whitelist, ip) || MemberWhitelists(env, groups, doc, ip))
  {
    var filter := u.filter;
    var gs := UserGroups(env, groups, doc);
    assert filter == Filter(doc.filter,
                            MergedAll(Parsed(env.parser, doc.filter.whitelist), Whitelists(gs)),
                            MergedAll(Parsed(env.parser, doc.filter.blacklist), Blacklists(gs)));
    GroupsVerdict(env, groups, doc, gs, ip);
  }

  lemma GroupsVerdict(env: Env, groups: map<string, GroupState>, doc: UserDoc, gs: seq<GroupState>, ip: Address)
    requires env.parser.Lawful() && GroupsParsed(env, groups)
    requires gs == UserGroups(env, groups, doc)
    ensures var own := ParsedFilter(env.parser, doc.filter);
            Verdict(MergedAll(own.whitelist, Whitelists(gs)), MergedAll(own.blacklist, Blacklists(gs)), ip) <==>
            && !AnyContains(own.blacklist, ip) && !MemberBlacklists(env, groups, doc, ip)
            && ((|own.whitelist| == 0 && NoMemberWhitelist(env, groups, doc))
                || AnyContains(own.whitelist, ip) || MemberWhitelists(env, groups, doc, ip))
  {
    var p, own := env.parser, ParsedFilter(env.parser, doc.filter);
    var whites, blacks := Whitelists(gs), Blacklists(gs);
    MembersAre(env, groups, doc, gs);
    forall g | g in whites || g in blacks
      ensures AllValid(g)
    {
      ListsAreParsed(env, groups, doc, gs, g);
    }
    ParsedAccepts(p, doc.filter.whitelist, ip);
    ParsedAccepts(p, doc.filter.blacklist, ip);
    MergedVerdict(own.whitelist, whites, own.blacklist, blacks, ip);
    WhitelistsOfMembers(env, groups, doc, gs, ip);
    BlacklistsOfMembers(env, groups, doc, gs, ip);
  }

  lemma MembersAre(env: Env, groups: map<string, GroupState>, doc: UserDoc, gs: seq<GroupState>)
    requires gs == UserGroups(env, groups, doc)
    ensures forall s :: s in gs ==> MemberState(env, groups, doc, s)
    ensures forall g :: Member(env, groups, doc, g) ==> groups[g] in gs
  {
    var names := GroupNames(env.parser.trim, doc.groups);
    DistinctNames(env.parser.trim, Split(doc.groups, ','));
    KnownGroups(groups, names);
    forall s | s in gs
      ensures MemberState(env, groups, doc, s)
    {
      var k :| 0 <= k < |names| && names[k] in groups && groups[names[k]] == s;
      assert names[k] in names;
      assert Member(env, groups, doc, names[k]);
    }
    forall g | Member(env, groups, doc, g)
      ensures groups[g] in gs
    {
      assert g in names;
    }
  }

  lemma ListsAreParsed(env: Env, groups: map<string, GroupState>, doc: UserDoc, gs: seq<GroupState>, list: seq<IPNet>)
    requires env.parser.Lawful() && GroupsParsed(env, groups)
    requires forall s :: s in gs ==> MemberState(env, groups, doc, s)
    requires list in Whitelists(gs) || list in Blacklists(gs)
    ensures AllValid(list)
  {
    var i;
    if list in Whitelists(gs) {
      i :| 0 <= i < |gs| && Whitelists(gs)[i] == list;
    } else {
      i :| 0 <= i < |gs| && Blacklists(gs)[i] == list;
    }
    assert gs[i] in gs;
    var g :| Member(env, groups, doc, g) && groups[g] == gs[i];
    var d := groups[g].filter.doc;
    ParsedAccepts(env.parser, d.whitelist, 0);
    ParsedAccepts(env.parser, d.blacklist, 0);
  }

  lemma WhitelistsOfMembers(env: Env, groups: map<string, GroupState>, doc: UserDoc, gs: seq<GroupState>, ip: Address)
    requires forall s :: s in gs ==> MemberState(env, groups, doc, s)
    requires forall g :: Member(env, groups, doc, g) ==> groups[g] in gs
    ensures AnyGroup(Whitelists(gs), ip) <==> MemberWhitelists(env, groups, doc, ip)
    ensures (forall w :: w in Whitelists(gs) ==> |w| == 0) <==> NoMemberWhitelist(env, groups, doc)
  {
    forall g | Member(env, groups, doc, g)
      ensures groups[g].filter.whitelist in Whitelists(gs)
    {
      var i :| 0 <= i < |gs| && gs[i] == groups[g];
      assert Whitelists(gs)[i] == groups[g].filter.whitelist;
    }
    forall w | w in Whitelists(gs)
      ensures exists g :: Member(env, groups, doc, g) && groups[g].filter.whitelist == w
    {
      var i :| 0 <= i < |gs| && Whitelists(gs)[i] == w;
      assert MemberState(env, groups, doc, gs[i]);
    }
  }

  lemma BlacklistsOfMembers(env: Env, groups: map<string, GroupState>, doc: UserDoc, gs: seq<GroupState>, ip: Address)
    requires forall s :: s in gs ==> MemberState(env, groups, doc, s)
    requires forall g :: Member(env, groups, doc, g) ==> groups[g] in gs
    ensures AnyGroup(Blacklists(gs), ip) <==> MemberBlacklists(env, groups, doc, ip)
  {
    forall g | Member(env, groups, doc, g)
      ensures groups[g].filter.blacklist in Blacklists(gs)
    {
      var i :| 0 <= i < |gs| && gs[i] == groups[g];
      assert Blacklists(gs)[i] == groups[g].filter.blacklist;
    }
    forall b | b in Blacklists(gs)
      ensures exists g :: Member(env, groups, doc, g) && groups[g].filter.blacklist == b
    {
      var i :| 0 <= i < |gs| && Blacklists(gs)[i] == b;
      assert MemberState(env, groups, doc, gs[i]);
    }
  }

  // ---------------------------------------------------------------- the fixed point

  predicate SameEntries(m: map<string, MapEntry>, m': map<string, MapEntry>) {
    m.Keys == m'.Keys && forall a :: a in m ==> EntryDoc(m[a]) == EntryDoc(m'[a])
  }

  /** Equal but for the handles. */
  predicate SameGroup(g: GroupState, g': GroupState) {
    && g'.filter == g.filter && g.mapping.Keys == g'.mapping.Keys && Opened(g) && Opened(g')
    && forall a :: a in g.mapping ==> EntryDoc(g.mapping[a].value) == EntryDoc(g'.mapping[a].value)
  }

  predicate SameGroups(gs: seq<GroupState>, gs': seq<GroupState>) {
    |gs| == |gs'| && forall i :: 0 <= i < |gs| ==> SameGroup(gs[i], gs'[i])
  }

  predicate SameUser(u: UserState, u': UserState) {
    u' == u.(mapping := u'.mapping) && SameEntries(u.mapping, u'.mapping)
  }

  lemma {:induction false} MergeIgnoresHandles(gs: seq<GroupState>, gs': seq<GroupState>)
    requires SameGroups(gs, gs')
    ensures SameEntries(MergeGroups(gs), MergeGroups(gs'))
  {
    if |gs| > 0 {
      var n := |gs| - 1;
      MergeIgnoresHandles(gs[..n], gs'[..n]);
      var acc, acc', g, g' := MergeGroups(gs[..n]), MergeGroups(gs'[..n]), gs[n], gs'[n];
      assert SameGroup(g, g');
      forall a | a in MergeGroups(gs)
        ensures EntryDoc(MergeGroups(gs)[a]) == EntryDoc(MergeGroups(gs')[a])
      {
        if a in g.mapping {
          assert EntryDoc(g.mapping[a].value) == EntryDoc(g'.mapping[a].value);
        }
      }
    }
  }

  lemma {:induction false} KnownSame(groups: map<string, GroupState>, groups': map<string, GroupState>,
                                     names: seq<string>)
    requires groups.Keys == groups'.Keys
    requires forall g :: g in groups ==> SameGroup(groups[g], groups'[g])
    ensures SameGroups(Known(groups, names), Known(groups', names))
  {
    if |names| > 0 {
      KnownSame(groups, groups', names[..|names| - 1]);
    }
  }

  lemma SameLists(gs: seq<GroupState>, gs': seq<GroupState>)
    requires SameGroups(gs, gs')
    ensures Whitelists(gs) == Whitelists(gs') && Blacklists(gs) == Blacklists(gs')
  {
    assert forall i :: 0 <= i < |gs| ==> SameGroup(gs[i], gs'[i]);
  }

  /** A group loaded from the document of an opened group. */
  lemma GroupReloaded(env: Env, doc: GroupDoc, g: GroupState, g': GroupState)
    requires GroupLoaded(env, doc, g) && Opened(g)
    requires GroupLoaded(env, GroupDocOf(g), g')
    ensures SameGroup(g, g')
  {
    forall a | a in g.mapping
      ensures g'.mapping[a].Some? && EntryDoc(g.mapping[a].value) == EntryDoc(g'.mapping[a].value)
    {
      assert GroupDocOf(g).mapping[a] == Some(EntryDoc(g.mapping[a].value));
    }
  }

  /** The credentials a load stored are read back as they are, after a restart as well as in place. */
  lemma CredentialsReloaded(c: Primitives, login: string, u: UserState, prev: Option<UserState>, u': UserState)
    requires PasswordForm(c, u.storedPassword, u.password) && PubKeyForm(c, u.storedPubKey, u.pubkey)
    requires u.storedPassword == [] ==> u.password == []
    requires u.storedPubKey == [] ==> u.pubkey == []
    requires prev == None || prev == Some(u)
    requires CredentialsLoaded(c, UserDocOf(u), prev, u')
    ensures u'.storedPassword == u.storedPassword && u'.password == u.password
    ensures u'.storedPubKey == u.storedPubKey && u'.pubkey == u.pubkey
    ensures Skipped(UserDocOf(u), prev) <==> u.storedPassword == [] && u.storedPubKey == []
  {
  }

  /** What a load says of a user that it loads: the credentials, and nothing else of the old user. */
  lemma LoadedForms(env: Env, groups: map<string, GroupState>, login: string,
                    doc: UserDoc, prev: Option<UserState>, u: UserState)
    requires env.Lawful() && CredentialsSafe(env.cipher, doc, prev)
    requires prev.Some? ==> UserInv(env, login, prev.value)
    requires UserLoaded(env, groups, login, doc, prev, u)
    ensures PasswordForm(env.cipher, u.storedPassword, u.password)
    ensures PubKeyForm(env.cipher, u.storedPubKey, u.pubkey)
    ensures u.storedPassword == [] ==> u.password == []
    ensures u.storedPubKey == [] ==> u.pubkey == []
    ensures Skipped(doc, prev) <==> u.storedPassword == [] && u.storedPubKey == []
  {
    SourceReopens(env.cipher, PasswordSource(doc, prev), u.storedPassword);
    SourceReopens(env.cipher, PubKeySource(doc, prev), u.storedPubKey);
    PasswordKept(env, login, doc, prev, u);
    PubKeyKept(env, login, doc, prev, u);
  }

  lemma SetUpAgain(env: Env, groups: map<string, GroupState>, groups': map<string, GroupState>, login: string,
                   doc: UserDoc, doc': UserDoc, u: UserState, u': UserState)
    requires groups.Keys == groups'.Keys && forall g :: g in groups ==> SameGroup(groups[g], groups'[g])
    requires doc'.groups == doc.groups && doc'.filter == doc.filter && doc'.mapping == doc.mapping
    requires SetUp(env, UserGroups(env, groups, doc), login, doc, u)
    requires SetUp(env, UserGroups(env, groups', doc'), login, doc', u')
    ensures u'.login == u.login && u'.filter == u.filter && SameEntries(u.mapping, u'.mapping)
  {
    var gs, gs' := UserGroups(env, groups, doc), UserGroups(env, groups', doc');
    KnownSame(groups, groups', GroupNames(env.parser.trim, doc.groups));
    MergeIgnoresHandles(gs, gs');
    SameLists(gs, gs');
    assert SameEntries(MergeGroups(gs), MergeGroups(gs'));
  }

  lemma UserReloaded(env: Env, groups: map<string, GroupState>, groups': map<string, GroupState>, login: string,
                     doc: UserDoc, first: Option<UserState>, u: UserState, prev: Option<UserState>, u': UserState)
    requires env.Lawful() && CredentialsSafe(env.cipher, doc, first)
    requires first.Some? ==> UserInv(env, login, first.value)
    requires UserLoaded(env, groups, login, doc, first, u)
    requires prev == None || prev == Some(u)
    requires UserLoaded(env, groups', login, UserDocOf(u), prev, u')
    requires groups.Keys == groups'.Keys && forall g :: g in groups ==> SameGroup(groups[g], groups'[g])
    ensures SameUser(u, u')
  {
    LoadedForms(env, groups, login, doc, first, u);
    CredentialsReloaded(env.cipher, login, u, prev, u');
    if !Skipped(doc, first) {
      SetUpAgain(env, groups, groups', login, doc, UserDocOf(u), u, u');
    }
  }

  predicate SecretsFit(cfg: ConfigState) {
    && |cfg.http.url| <= MAX_SECRET && |cfg.http.username| <= MAX_SECRET
    && |cfg.http.password| <= MAX_SECRET && |cfg.hostKey| <= MAX_SECRET
  }

  lemma SecureFieldReloaded(c: Primitives, json: Bytes, prev: Bytes, stored: Bytes, prev': Bytes)
    requires c.Lawful() && Decrypt(c, json) != Panic
    requires SecureStored(c, json, SecureRuntime(c, json, [], prev), stored)
    requires |SecureRuntime(c, json, [], prev)| <= MAX_SECRET
    requires prev' == [] || prev' == SecureRuntime(c, json, [], prev)
    ensures SecureRuntime(c, stored, [], prev') == SecureRuntime(c, json, [], prev)
  {
    SecureFieldConsistent(c, json, prev, stored);
  }

  /** A load of `doc` in state `s`, then a load of the document it saved, in place or after a restart. */
  ghost predicate SavedAndReloaded(env: Env, s: ServerState, doc: ConfigDoc, s': ServerState,
                                   p: ServerState, s'': ServerState)
  {
    && env.Lawful() && StateInv(env, s)
    && LoadSafe(env, s, doc) && Loaded(env, s, doc, s')
    && (p == s' || p == EMPTY)
    && LoadSafe(env, p, DocOf(s'.config.value)) && Loaded(env, p, DocOf(s'.config.value), s'')
  }

  /**
    Save and reload: loading the document that a load saved, in the running server or after a
    restart, gives every user the same credentials, stored text, filters and mapping up to fresh handles.
    */
  lemma UsersReloaded(env: Env, s: ServerState, doc: ConfigDoc, s': ServerState, p: ServerState, s'': ServerState)
    requires SavedAndReloaded(env, s, doc, s', p, s'')
    ensures s''.Users().Keys == s'.Users().Keys
    ensures forall l :: l in s'.Users() ==> SameUser(s'.Users()[l], s''.Users()[l])
  {
    SavedLogins(env, s, doc, s', p, s'');
    forall l | l in s'.Users()
      ensures SameUser(s'.Users()[l], s''.Users()[l])
    {
      UserReloadedAt(env, s, doc, s', p, s'', l);
    }
  }

  lemma SavedLogins(env: Env, s: ServerState, doc: ConfigDoc, s': ServerState, p: ServerState, s'': ServerState)
    requires SavedAndReloaded(env, s, doc, s', p, s'')
    ensures s'.Users().Keys == doc.users.Keys == s''.Users().Keys
  {
  }

  lemma UserReloadedAt(env: Env, s: ServerState, doc: ConfigDoc, s': ServerState, p: ServerState, s'': ServerState,
                       login: string)
    requires SavedAndReloaded(env, s, doc, s', p, s'') && login in doc.users
    ensures login in s'.Users() && login in s''.Users() && SameUser(s'.Users()[login], s''.Users()[login])
  {
    GroupsReloaded(env, s, doc, s', p, s'');
    BeforeLoad(env, s, doc, login);
    LoadedUser(env, s, doc, s', login);
    LoadedUser(env, p, DocOf(s'.config.value), s'', login);
    UserReloaded(env, s'.config.value.groups, s''.config.value.groups, login,
                 doc.users[login], s.User(login), s'.Users()[login], p.User(login), s''.Users()[login]);
  }

  lemma BeforeLoad(env: Env, s: ServerState, doc: ConfigDoc, login: string)
    requires StateInv(env, s) && LoadSafe(env, s, doc) && login in doc.users
    ensures CredentialsSafe(env.cipher, doc.users[login], s.User(login))
    ensures s.User(login).Some? ==> UserInv(env, login, s.User(login).value)
  {
    assert UserSafe(env, doc, doc.users[login], s.User(login));
  }

  /** The web and host-key secrets come back from their ciphertexts. */
  lemma SecretsReloaded(env: Env, s: ServerState, doc: ConfigDoc, s': ServerState, p: ServerState, s'': ServerState)
    requires SavedAndReloaded(env, s, doc, s', p, s'')
    requires SecretsFit(s'.config.value)
    ensures var h, h' := s'.config.value.http, s''.config.value.http;
            h'.url == h.url && h'.username == h.username && h'.password == h.password && h'.filter == h.filter
    ensures s''.config.value.hostKey == s'.config.value.hostKey
  {
    var c, h, d, prev := env.cipher, s'.config.value.http, doc.http, OldHttp(s);
    var here := OldHttp(p);
    SecureFieldReloaded(c, d.url, if prev.Some? then prev.value.url else [], h.storedUrl,
                        if here.Some? then here.value.url else []);
    SecureFieldReloaded(c, d.username, if prev.Some? then prev.value.username else [], h.storedUsername,
                        if here.Some? then here.value.username else []);
    SecureFieldReloaded(c, d.password, if prev.Some? then prev.value.password else [], h.storedPassword,
                        if here.Some? then here.value.password else []);
    SecureFieldReloaded(c, doc.hostKey, [], s'.config.value.storedHostKey, []);
  }

  lemma GroupsReloaded(env: Env, s: ServerState, doc: ConfigDoc, s': ServerState, p: ServerState, s'': ServerState)
    requires SavedAndReloaded(env, s, doc, s', p, s'')
    ensures s''.config.value.groups.Keys == s'.config.value.groups.Keys
    ensures forall g :: g in s'.config.value.groups ==>
              SameGroup(s'.config.value.groups[g], s''.config.value.groups[g])
  {
    GroupKeysReloaded(env, s, doc, s', p, s'');
    forall g | g in doc.groups
      ensures SameGroup(s'.config.value.groups[g], s''.config.value.groups[g])
    {
      GroupReloadedAt(env, s, doc, s', p, s'', g);
    }
  }

  lemma GroupKeysReloaded(env: Env, s: ServerState, doc: ConfigDoc, s': ServerState, p: ServerState, s'': ServerState)
    requires Loaded(env, s, doc, s') && Loaded(env, p, DocOf(s'.config.value), s'')
    ensures s''.config.value.groups.Keys == s'.config.value.groups.Keys == doc.groups.Keys
  {
  }

  lemma GroupReloadedAt(env: Env, s: ServerState, doc: ConfigDoc, s': ServerState, p: ServerState, s'': ServerState,
                        g: string)
    requires Loaded(env, s, doc, s') && g in doc.groups
    requires LoadSafe(env, p, DocOf(s'.config.value)) && Loaded(env, p, DocOf(s'.config.value), s'')
    ensures g in s'.config.value.groups && g in s''.config.value.groups
    ensures SameGroup(s'.config.value.groups[g], s''.config.value.groups[g])
  {
    LoadedGroup(env, s, doc, s', g);
    LoadedGroup(env, p, DocOf(s'.config.value), s'', g);
    SavedGroupOpened(env, p, s'.config.value, g);
    GroupReloaded(env, doc.groups[g], s'.config.value.groups[g], s''.config.value.groups[g]);
  }

  lemma LoadedGroup(env: Env, s: ServerState, doc: ConfigDoc, s': ServerState, g: string)
    requires Loaded(env, s, doc, s') && g in doc.groups
    ensures g in s'.config.value.groups && GroupLoaded(env, doc.groups[g], s'.config.value.groups[g])
  {
  }

  /** A saved group that the next load accepts has no null mapping. */
  lemma SavedGroupOpened(env: Env, p: ServerState, cfg: ConfigState, g: string)
    requires LoadSafe(env, p, DocOf(cfg)) && g in cfg.groups
    ensures Opened(cfg.groups[g]) && DocOf(cfg).groups[g] == GroupDocOf(cfg.groups[g])
  {
    var saved := DocOf(cfg).groups[g];
    assert NoNulls(saved);
    assert forall a :: a in cfg.groups[g].mapping ==> saved.mapping[a].Some?;
  }
}
