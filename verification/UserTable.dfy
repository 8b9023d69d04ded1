/** LoadConfig's loop over the users: the new user table and the new fingerprint index. */
module UserTable {
  import opened Wrappers
  import opened ConfigModel
  import opened ConfigSpec
  import opened ServerObjects
  import opened Users

  /** The state of a config, if there is one. */
  ghost function StateOf(config: Config?): Option<ConfigState>
    reads config
    reads if config == null then {} else config.groups.Values
    reads if config == null then {} else config.users.Values
    reads if config == null then {} else config.Mappings()
  {
    if config == null then None else Some(config.State())
  }

  /** The old users have the credentials that `before` says. */
  ghost predicate OldMatches(config: Config?, before: Option<ConfigState>)
    reads config
    reads if config == null then {} else config.users.Values
  {
    if config == null then before == None
    else
      && before.Some? && before.value.users.Keys == config.users.Keys
      && forall l :: l in config.users ==>
           var o, u := config.users[l], before.value.users[l];
           && o.storedPassword == u.storedPassword && o.password == u.password
           && o.storedPubKey == u.storedPubKey && o.pubkey == u.pubkey
  }

  lemma StateMatches(config: Config?)
    ensures OldMatches(config, StateOf(config))
  {
    if config != null {
      var users := config.State().users;
      assert forall l :: l in config.users ==> users[l] == config.users[l].State();
    }
  }

  /** The credentials that the login's old user has, to fall back to. */
  function OldCredentials(config: Config?, login: string): (Option<Credential>, Option<Credential>)
    reads config
    reads if config == null then {} else config.users.Values
  {
    if config != null && login in config.users then
      var u := config.users[login];
      (Some(Credential(u.storedPassword, u.password)), Some(Credential(u.storedPubKey, u.pubkey)))
    else
      (None, None)
  }

  lemma OldCredentialsAre(config: Config?, login: string, before: Option<ConfigState>)
    requires OldMatches(config, before)
    ensures OldCredentials(config, login) == (OldPassword(UserIn(before, login)), OldPubKey(UserIn(before, login)))
  {
  }

  /** The user object is in the given state, and no two of its aliases share a mapping object. */
  ghost predicate Built(user: User, u: UserState)
    reads user, user.own.Values, user.mapping.Values
  {
    user.State() == u && Separate(user.mapping)
  }

  ghost predicate AllBuilt(users: map<string, User>, loaded: map<string, UserState>)
    reads users.Values
    reads set u, m | u in users.Values && m in u.own.Values :: m
    reads set u, m | u in users.Values && m in u.mapping.Values :: m
  {
    users.Keys == loaded.Keys && forall l {:trigger users[l]} :: l in users ==> Built(users[l], loaded[l])
  }

  /** The user objects and the index objects are as stated. */
  ghost predicate TablesBuilt(users: map<string, User>, index: map<string, User>,
                              loaded: map<string, UserState>, logins: map<string, string>)
    reads index.Values, users.Values
    reads set u, m | u in users.Values && m in u.own.Values :: m
    reads set u, m | u in users.Values && m in u.mapping.Values :: m
  {
    AllBuilt(users, loaded) && Logins(index) == logins
  }

  lemma AllBuiltStep(users: map<string, User>, loaded: map<string, UserState>, login: string, user: User, u: UserState)
    requires AllBuilt(users, loaded) && Built(user, u)
    ensures AllBuilt(users[login := user], loaded[login := u])
  {
  }

  ghost predicate AllReady(env: Env, docs: map<string, UserDoc>, before: Option<ConfigState>,
                           states: map<string, GroupState>)
  {
    forall l {:trigger UserReady(env, docs[l], UserIn(before, l), states)} ::
      l in docs ==> UserReady(env, docs[l], UserIn(before, l), states)
  }

  /** What loading users needs of the objects it reads: the old users, and the groups after loading. */
  ghost predicate Ready(env: Env, config: Config?, groups: map<string, Group>, before: Option<ConfigState>,
                        groupDocs: map<string, GroupDoc>, states: map<string, GroupState>)
    reads config
    reads if config == null then {} else config.users.Values
    reads groups.Values, set g, m | g in groups.Values && m in g.mapping.Values :: m
  {
    env.Lawful() && GroupsReady(env, groupDocs, states) && Reflects(groups, states) && OldMatches(config, before)
  }

  /** One round of the loop over the users: loads the user and indexes it if it has a fingerprint. */
  method LoadNext(env: Env, config: Config?, login: string, doc: UserDoc,
                  groups: map<string, Group>, index: map<string, User>,
                  ghost before: Option<ConfigState>, ghost groupDocs: map<string, GroupDoc>,
                  ghost states: map<string, GroupState>, ghost logins: map<string, string>)
    returns (user: User, index': map<string, User>, ghost u: UserState)
    requires Ready(env, config, groups, before, groupDocs, states) && UserReady(env, doc, UserIn(before, login), states)
    requires Logins(index) == logins
    ensures fresh(user) && Built(user, u)
    ensures UserLoaded(env, states, login, doc, UserIn(before, login), u)
    ensures Logins(index') == NextIndex(env, logins, login, u)
  {
    ghost var prev := UserIn(before, login);
    OldCredentialsAre(config, login, before);
    var (password, pubkey) := OldCredentials(config, login);
    ReadyToLoad(env, config, doc, prev, groups, before, groupDocs, states);
    var fp;
    user, fp, u := LoadUser(env, login, doc, password, pubkey, groups, prev, groupDocs, states);
    KeyedUser(env, states, login, doc, prev, u);
    IndexedUser(env, index, login, user, fp, logins, u);
    index' := if fp.Some? then index[fp.value := user] else index;
  }

  lemma ReadyToLoad(env: Env, config: Config?, doc: UserDoc, prev: Option<UserState>, groups: map<string, Group>,
                    before: Option<ConfigState>, groupDocs: map<string, GroupDoc>, states: map<string, GroupState>)
    requires Ready(env, config, groups, before, groupDocs, states) && UserReady(env, doc, prev, states)
    ensures !Skipped(doc, prev) ==> GroupsUsable(env, doc, groups, groupDocs, states)
  {
  }

  /** The same with the user put into the table. */
  method PutNext(env: Env, config: Config?, login: string, doc: UserDoc, groups: map<string, Group>,
                 users: map<string, User>, index: map<string, User>,
                 ghost before: Option<ConfigState>, ghost groupDocs: map<string, GroupDoc>,
                 ghost states: map<string, GroupState>, ghost loaded: map<string, UserState>,
                 ghost logins: map<string, string>)
    returns (users': map<string, User>, index': map<string, User>, ghost u: UserState)
    requires Ready(env, config, groups, before, groupDocs, states) && UserReady(env, doc, UserIn(before, login), states)
    requires TablesBuilt(users, index, loaded, logins)
    ensures Ready(env, config, groups, before, groupDocs, states)
    ensures UserLoaded(env, states, login, doc, UserIn(before, login), u)
    ensures users'.Keys == users.Keys + {login}
    ensures TablesBuilt(users', index', loaded[login := u], NextIndex(env, logins, login, u))
  {
    var user;
    user, index', u := LoadNext(env, config, login, doc, groups, index, before, groupDocs, states, logins);
    AllBuiltStep(users, loaded, login, user, u);
    users' := users[login := user];
  }

  /** The same in terms of all the users to load. */
  method AddNext(env: Env, config: Config?, login: string, docs: map<string, UserDoc>, groups: map<string, Group>,
                 users: map<string, User>, index: map<string, User>,
                 ghost before: Option<ConfigState>, ghost groupDocs: map<string, GroupDoc>,
                 ghost states: map<string, GroupState>, ghost loaded: map<string, UserState>,
                 ghost logins: map<string, string>)
    returns (users': map<string, User>, index': map<string, User>,
             ghost loaded': map<string, UserState>, ghost logins': map<string, string>)
    requires Ready(env, config, groups, before, groupDocs, states) && AllReady(env, docs, before, states)
    requires login in docs && login !in loaded && TablesBuilt(users, index, loaded, logins)
    requires TablesAgree(env, states, docs, before, loaded, logins)
    ensures Ready(env, config, groups, before, groupDocs, states)
    ensures users'.Keys == users.Keys + {login} && TablesBuilt(users', index', loaded', logins')
    ensures TablesAgree(env, states, docs, before, loaded', logins')
  {
    assert UserReady(env, docs[login], UserIn(before, login), states);
    ghost var u;
    users', index', u := PutNext(env, config, login, docs[login], groups, users, index,
                                 before, groupDocs, states, loaded, logins);
    TablesStep(env, states, docs, before, loaded, logins, login, u);
    loaded', logins' := loaded[login := u], NextIndex(env, logins, login, u);
  }

  lemma IndexedUser(env: Env, index: map<string, User>, login: string, user: User, fp: Option<string>,
                    logins: map<string, string>, u: UserState)
    requires Logins(index) == logins && user.State() == u
    requires fp == env.fingerprint(u.pubkey) && (fp.Some? ==> u.login == login)
    ensures Logins(if fp.Some? then index[fp.value := user] else index) == NextIndex(env, logins, login, u)
  {
  }

  /** The loop over the users. It builds the index anew; of users with equal fingerprints the last one stays. */
  method LoadUsers(env: Env, config: Config?, docs: map<string, UserDoc>, groups: map<string, Group>,
                   ghost before: Option<ConfigState>, ghost groupDocs: map<string, GroupDoc>,
                   ghost states: map<string, GroupState>)
    returns (users: map<string, User>, index: map<string, User>,
             ghost loaded: map<string, UserState>, ghost logins: map<string, string>)
    requires Ready(env, config, groups, before, groupDocs, states)
    requires AllReady(env, docs, before, states)
    ensures users.Keys == docs.Keys && TablesBuilt(users, index, loaded, logins)
    ensures TablesAgree(env, states, docs, before, loaded, logins)
  {
    users, index, loaded, logins := map[], map[], map[], map[];
    var todo := docs.Keys;
    while todo != {}
      invariant todo <= docs.Keys && users.Keys == docs.Keys - todo
      invariant Ready(env, config, groups, before, groupDocs, states) && TablesBuilt(users, index, loaded, logins)
      invariant TablesAgree(env, states, docs, before, loaded, logins)
    {
      var login :| login in todo;
      todo := todo - {login};
      users, index, loaded, logins := AddNext(env, config, login, docs, groups, users, index,
                                              before, groupDocs, states, loaded, logins);
    }
  }

  /** The user table is as the document and the old table demand, and the index agrees with it. */
  ghost predicate TablesAgree(env: Env, states: map<string, GroupState>, docs: map<string, UserDoc>,
                              before: Option<ConfigState>, loaded: map<string, UserState>, logins: map<string, string>)
  {
    loaded.Keys <= docs.Keys && AllLoaded(env, states, docs, before, loaded) && IndexAgrees(env, loaded, logins)
  }

  lemma TablesStep(env: Env, states: map<string, GroupState>, docs: map<string, UserDoc>, before: Option<ConfigState>,
                   loaded: map<string, UserState>, logins: map<string, string>, login: string, u: UserState)
    requires login in docs && login !in loaded && TablesAgree(env, states, docs, before, loaded, logins)
    requires UserLoaded(env, states, login, docs[login], UserIn(before, login), u)
    ensures TablesAgree(env, states, docs, before, loaded[login := u], NextIndex(env, logins, login, u))
  {
    IndexStep(env, loaded, logins, login, u);
    AllLoadedStep(env, states, docs, before, loaded, login, u);
  }

  lemma AllLoadedStep(env: Env, states: map<string, GroupState>, docs: map<string, UserDoc>,
                      before: Option<ConfigState>, loaded: map<string, UserState>, login: string, u: UserState)
    requires loaded.Keys <= docs.Keys && login in docs && AllLoaded(env, states, docs, before, loaded)
    requires UserLoaded(env, states, login, docs[login], UserIn(before, login), u)
    ensures AllLoaded(env, states, docs, before, loaded[login := u])
  {
  }

  ghost predicate AllLoaded(env: Env, states: map<string, GroupState>, docs: map<string, UserDoc>,
                            before: Option<ConfigState>, loaded: map<string, UserState>)
    requires loaded.Keys <= docs.Keys
  {
    forall l {:trigger UserLoaded(env, states, l, docs[l], UserIn(before, l), loaded[l])} ::
      l in loaded ==> UserLoaded(env, states, l, docs[l], UserIn(before, l), loaded[l])
  }

  ghost function Logins(index: map<string, User>): map<string, string>
    reads index.Values
  {
    map fp | fp in index :: index[fp].login
  }

  function NextIndex(env: Env, index: map<string, string>, login: string, u: UserState): map<string, string> {
    var fp := env.fingerprint(u.pubkey);
    if fp.Some? then index[fp.value := login] else index
  }

  lemma IndexStep(env: Env, users: map<string, UserState>, index: map<string, string>, login: string, u: UserState)
    requires IndexAgrees(env, users, index) && login !in users
    ensures IndexAgrees(env, users[login := u], NextIndex(env, index, login, u))
  {
  }

  ghost function UserIn(config: Option<ConfigState>, login: string): Option<UserState> {
    if config.Some? && login in config.value.users then Some(config.value.users[login]) else None
  }

  /** Nothing in the way of loading the user. */
  ghost predicate UserReady(env: Env, doc: UserDoc, prev: Option<UserState>, states: map<string, GroupState>) {
    && CredentialsSafe(env.cipher, doc, prev)
    && (!Skipped(doc, prev) ==>
          forall g :: g in GroupNames(env.parser.trim, doc.groups) && g in states ==> Opened(states[g]))
  }

  /** A user whose key has a fingerprint was set up under its login. */
  lemma KeyedUser(env: Env, states: map<string, GroupState>, login: string,
                  doc: UserDoc, prev: Option<UserState>, u: UserState)
    requires env.Lawful() && UserLoaded(env, states, login, doc, prev, u)
    ensures env.fingerprint(u.pubkey).Some? ==> u.login == login
  {
  }
}
