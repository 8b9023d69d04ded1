/** Setting up one user: LoadConfig's loop body over the users, proved against ConfigSpec. */
module Users {
  import opened Wrappers
  import opened Strings
  import opened Cipher
  import opened IpFilter
  import opened FilterLists
  import opened ConfigModel
  import opened ConfigSpec
  import opened ConfigTheorems
  import opened ConfigReload
  import opened ServerObjects
  import opened Loading

  // ---------------------------------------------------------------- credentials

  /** What RestoreCredential has left of a credential. */
  ghost predicate Restored(c: Primitives, src: Source, text: Bytes) {
    if src.Fresh? then Encrypts(c, text, src.plain) && IsEncrypted(text) else text == src.text
  }

  /** The first half of what LoadConfig does to a credential: fallback to the old user, and removal. */
  method RestoreCredential(c: Primitives, json: Bytes, prev: Option<Credential>, removable: bool)
    returns (stored: Bytes, runtime: Bytes)
    ensures Restored(c, CredentialSource(json, prev, removable), stored)
    ensures runtime == Carried(json, prev)
    ensures prev.None? ==> stored == json && runtime == []
    ensures prev.Some? && json == [] ==>
              && runtime == prev.value.runtime
              && if prev.value.stored == [] && runtime != [] then Encrypts(c, stored, runtime)
                 else stored == prev.value.stored
    ensures prev.Some? && json == [0x2D] && removable ==> stored == [] && runtime == []
    ensures prev.Some? && json != [] && !(json == [0x2D] && removable) ==> stored == json && runtime == []
  {
    stored, runtime := json, [];
    if prev.Some? {
      if json == [] {
        stored, runtime := prev.value.stored, prev.value.runtime;
        if runtime != [] && stored == [] {
          stored := Seal(c, runtime);
        }
      } else if removable && json == DASH {
        stored, runtime := [], [];
      }
    }
  }

  /** The second half: a stored form that is not a ciphertext yet is encrypted. */
  method SealCredential(c: Primitives, text: Bytes) returns (stored: Bytes)
    ensures if text == [] || IsEncrypted(text) then stored == text else Encrypts(c, stored, text)
  {
    stored := text;
    if text != [] && !IsEncrypted(text) {
      stored := Seal(c, text);
    }
  }

  // ---------------------------------------------------------------- group names

  method ListGroupNames(trim: string -> string, groups: string) returns (names: seq<string>)
    ensures names == GroupNames(trim, groups)
  {
    var raw := Split(groups, ',');
    var seen: set<string> := {};
    names := [];
    for i := 0 to |raw|
      invariant names == Distinct(trim, raw[..i])
      invariant forall n :: n in seen <==> n in names
    {
      assert raw[..i + 1][..i] == raw[..i];
      var name := trim(raw[i]);
      if name == "" {
        continue;
      }
      if name in seen {
        continue;
      }
      seen := seen + {name};
      names := names + [name];
    }
    assert raw[..|raw|] == raw;
  }

  // ---------------------------------------------------------------- mappings

  /** Copies a group's mappings into a user's, an exec one over whatever is there. */
  method MergeGroupMapping(acc: map<string, Mapping>, g: Group) returns (m: map<string, Mapping>)
    requires forall a :: a in g.mapping ==> g.mapping[a] != null
    requires Separate(acc)
    ensures Separate(m)
    ensures m.Keys == acc.Keys + g.mapping.Keys
    ensures forall a :: a in m ==>
              if a in g.mapping && (g.mapping[a].mode == Exec || a !in acc)
              then m[a].Entry() == g.mapping[a].Entry() else m[a] == acc[a]
  {
    m := acc;
    var todo := g.mapping.Keys;
    while todo != {}
      invariant todo <= g.mapping.Keys && m.Keys == acc.Keys + (g.mapping.Keys - todo)
      invariant forall a :: a in m ==>
                  if a in g.mapping && a !in todo && (g.mapping[a].mode == Exec || a !in acc)
                  then m[a].Entry() == g.mapping[a].Entry() else m[a] == acc[a]
      invariant Separate(m)
    {
      var a :| a in todo;
      todo := todo - {a};
      if g.mapping[a].mode == Exec || a !in m {
        var copy := new Mapping.Copy(g.mapping[a]);
        m := m[a := copy];
      }
    }
  }

  /** The entries of the result are those of MergeGroup. */
  lemma MergedEntries(acc: map<string, Mapping>, g: Group, m: map<string, Mapping>)
    requires forall a :: a in g.mapping ==> g.mapping[a] != null
    requires m.Keys == acc.Keys + g.mapping.Keys
    requires forall a :: a in m ==>
               if a in g.mapping && (g.mapping[a].mode == Exec || a !in acc)
               then m[a].Entry() == g.mapping[a].Entry() else m[a] == acc[a]
    ensures Opened(g.State()) && Entries(m) == MergeGroup(Entries(acc), g.State())
  {
    assert g.State().mapping.Keys == g.mapping.Keys && Entries(acc).Keys == acc.Keys;
    assert Opened(g.State());
    var merged := MergeGroup(Entries(acc), g.State());
    assert merged.Keys == m.Keys;
    forall a | a in m
      ensures m[a].Entry() == merged[a]
    {
    }
  }

  /** A copy of the user's own mapping with a handle of its own, if it needs one and can have it. */
  method OpenCopy(env: Env, own: Mapping) returns (copy: Mapping?)
    requires own.root == null
    ensures copy != null <==> Usable(env, EntryDoc(own.Entry()))
    ensures copy != null ==> fresh(copy) && EntryOf(EntryDoc(own.Entry()), copy.Entry())
    ensures copy != null && copy.root != null ==> fresh(copy.root)
  {
    copy := new Mapping.Copy(own);
    if own.mode != Exec {
      copy.root := OpenRoot(env, own.path);
      if copy.root == null {
        copy := null;
      }
    }
  }

  /** Adds the user's own mappings whose directory opens, over those of the groups. */
  method AddOwnMappings(env: Env, acc: map<string, Mapping>, own: map<string, Mapping>)
    returns (m: map<string, Mapping>)
    requires forall a :: a in own ==> own[a].root == null
    requires Separate(acc) && RootsApart(acc) && forall a :: a in acc ==> RootFits(acc[a].Entry())
    ensures Separate(m) && RootsApart(m)
    ensures forall a :: a in m <==> a in acc || (a in own && Usable(env, EntryDoc(own[a].Entry())))
    ensures forall a :: a in m ==>
              if a in own && Usable(env, EntryDoc(own[a].Entry()))
              then EntryOf(EntryDoc(own[a].Entry()), m[a].Entry()) else m[a] == acc[a]
  {
    m := acc;
    var todo := own.Keys;
    while todo != {}
      invariant todo <= own.Keys
      invariant forall a :: a in m <==> a in acc || (a in own && a !in todo && Usable(env, EntryDoc(own[a].Entry())))
      invariant forall a :: a in m ==>
                  if a in own && a !in todo && Usable(env, EntryDoc(own[a].Entry()))
                  then EntryOf(EntryDoc(own[a].Entry()), m[a].Entry()) else m[a] == acc[a]
      invariant Separate(m) && RootsApart(m)
    {
      var a :| a in todo;
      todo := todo - {a};
      var copy := OpenCopy(env, own[a]);
      if copy != null {
        m := m[a := copy];
      }
    }
  }

  lemma KnownStep(states: map<string, GroupState>, names: seq<string>, i: nat)
    requires i < |names|
    ensures Known(states, names[..i + 1]) ==
            Known(states, names[..i]) + if names[i] in states then [states[names[i]]] else []
  {
    assert names[..i + 1][..i] == names[..i];
  }

  lemma ListsStep(gs: seq<GroupState>, g: GroupState, dst: seq<IPNet>)
    ensures MergedAll(dst, Whitelists(gs + [g])) == Merged(MergedAll(dst, Whitelists(gs)), g.filter.whitelist)
    ensures MergedAll(dst, Blacklists(gs + [g])) == Merged(MergedAll(dst, Blacklists(gs)), g.filter.blacklist)
  {
    assert Whitelists(gs + [g])[..|gs|] == Whitelists(gs);
    assert Blacklists(gs + [g])[..|gs|] == Blacklists(gs);
  }

  lemma MergeStep(gs: seq<GroupState>, g: GroupState)
    requires forall i :: 0 <= i < |gs| ==> Opened(gs[i])
    requires Opened(g)
    ensures MergeGroups(gs + [g]) == MergeGroup(MergeGroups(gs), g)
  {
    assert (gs + [g])[..|gs|] == gs;
  }

  /**
    Merges the filters and mappings of the named groups, in the order of the names, into a filter
    and an empty mapping. The groups and their mapping objects are only read.
    */
  method MergeUserGroups(filter: Filter, names: seq<string>, groups: map<string, Group>,
                         ghost states: map<string, GroupState>)
    returns (f: Filter, m: map<string, Mapping>)
    requires Reflects(groups, states)
    requires forall i :: 0 <= i < |names| && names[i] in groups ==> Opened(states[names[i]])
    ensures var gs := Known(states, names);
            && f == Filter(filter.doc, MergedAll(filter.whitelist, Whitelists(gs)),
                           MergedAll(filter.blacklist, Blacklists(gs)))
            && (forall i :: 0 <= i < |gs| ==> Opened(gs[i]))
            && Entries(m) == MergeGroups(gs)
    ensures Separate(m)
  {
    f, m := filter, map[];
    ghost var gs: seq<GroupState> := [];
    for i := 0 to |names|
      invariant gs == Known(states, names[..i])
      invariant f == Filter(filter.doc, MergedAll(filter.whitelist, Whitelists(gs)),
                            MergedAll(filter.blacklist, Blacklists(gs)))
      invariant forall k :: 0 <= k < |gs| ==> Opened(gs[k])
      invariant Entries(m) == MergeGroups(gs)
      invariant Separate(m)
    {
      KnownStep(states, names, i);
      if names[i] !in groups {
        continue;
      }
      ghost var g := states[names[i]];
      ListsStep(gs, g, filter.whitelist);
      ListsStep(gs, g, filter.blacklist);
      MergeStep(gs, g);
      f, m := MergeOneGroup(f, m, groups[names[i]], g);
      gs := gs + [g];
    }
    assert names[..|names|] == names;
  }

  method MergeOneGroup(f: Filter, m: map<string, Mapping>, group: Group, ghost g: GroupState)
    returns (f': Filter, m': map<string, Mapping>)
    requires group.State() == g && Opened(g) && Separate(m)
    ensures f' == Filter(f.doc, Merged(f.whitelist, g.filter.whitelist), Merged(f.blacklist, g.filter.blacklist))
    ensures Entries(m') == MergeGroup(Entries(m), g)
    ensures Separate(m')
  {
    var whitelist := MergeIPNetLists(f.whitelist, group.filter.whitelist);
    var blacklist := MergeIPNetLists(f.blacklist, group.filter.blacklist);
    f' := Filter(f.doc, whitelist, blacklist);
    m' := MergeMapping(m, group, g);
  }

  method MergeMapping(m: map<string, Mapping>, group: Group, ghost g: GroupState) returns (m': map<string, Mapping>)
    requires group.State() == g && Opened(g) && Separate(m)
    ensures Entries(m') == MergeGroup(Entries(m), g) && Separate(m')
  {
    OpenedObjects(group);
    m' := MergeGroupMapping(m, group);
    MergedEntries(m, group, m');
  }

  lemma OpenedObjects(g: Group)
    requires Opened(g.State())
    ensures forall a :: a in g.mapping ==> g.mapping[a] != null
  {
    forall a | a in g.mapping
      ensures g.mapping[a] != null
    {
      assert a in g.State().mapping;
    }
  }

  /** The handles merged from several groups stay apart: each alias got its handle from one group. */
  lemma MergedRootsOk(env: Env, docs: map<string, GroupDoc>, states: map<string, GroupState>, names: seq<string>)
    requires states.Keys == docs.Keys && AllRootsApart(states)
    requires forall g :: g in states ==> GroupLoaded(env, docs[g], states[g])
    requires forall i :: 0 <= i < |Known(states, names)| ==> Opened(Known(states, names)[i])
    ensures RootsOk(MergeGroups(Known(states, names)))
  {
    var m := MergeGroups(Known(states, names));
    forall a | a in m
      ensures RootFits(m[a])
    {
      var g := MergedFrom(env, docs, states, names, a);
    }
    forall a, b | a in m && b in m && a != b && m[a].root != null
      ensures m[a].root != m[b].root
    {
      var g := MergedFrom(env, docs, states, names, a);
      var h := MergedFrom(env, docs, states, names, b);
      TwoRootsApart(states, g, a, h, b);
    }
  }

  lemma TwoRootsApart(states: map<string, GroupState>, g: string, a: string, h: string, b: string)
    requires AllRootsApart(states) && g in states && h in states && a != b
    requires HasRoot(states[g], a) && b in states[h].mapping && states[h].mapping[b].Some?
    ensures RootOf(states[g], a) != states[h].mapping[b].value.root
  {
    if HasRoot(states[h], b) {
      assert GroupRootsApart(states[g]);
    }
  }

  lemma MergedFrom(env: Env, docs: map<string, GroupDoc>, states: map<string, GroupState>,
                   names: seq<string>, a: string)
    returns (g: string)
    requires states.Keys == docs.Keys
    requires forall g :: g in states ==> GroupLoaded(env, docs[g], states[g])
    requires forall i :: 0 <= i < |Known(states, names)| ==> Opened(Known(states, names)[i])
    requires a in MergeGroups(Known(states, names))
    ensures g in states && a in states[g].mapping && states[g].mapping[a] == Some(MergeGroups(Known(states, names))[a])
    ensures RootFits(MergeGroups(Known(states, names))[a])
  {
    var gs := Known(states, names);
    MergeClosedForm(gs, a);
    var i :| (LastExec(gs, i, a) || FirstPlain(gs, i, a)) && MergeGroups(gs)[a] == EntryAt(gs, i, a);
    KnownGroups(states, names);
    assert gs[i] in gs;
    var k :| 0 <= k < |names| && names[k] in states && states[names[k]] == gs[i];
    g := names[k];
    assert GroupLoaded(env, docs[g], states[g]);
  }

  // ---------------------------------------------------------------- one user

  /** What the groups have become, as far as a user depends on it. */
  ghost predicate GroupsReady(env: Env, docs: map<string, GroupDoc>, states: map<string, GroupState>) {
    && states.Keys == docs.Keys && AllRootsApart(states)
    && forall g {:trigger GroupLoaded(env, docs[g], states[g])} :: g in states ==> GroupLoaded(env, docs[g], states[g])
  }

  /** The runtime mapping: the groups' merged entries, then the user's own. */
  method BuildMapping(env: Env, merged: map<string, Mapping>, own: map<string, Mapping>,
                      ghost docs: map<string, MappingDoc>, ghost gs: seq<GroupState>)
    returns (m: map<string, Mapping>)
    requires forall i :: 0 <= i < |gs| ==> Opened(gs[i])
    requires Entries(merged) == MergeGroups(gs) && RootsOk(MergeGroups(gs)) && Separate(merged)
    requires Docs(own) == docs && forall a :: a in own ==> own[a].root == null
    ensures MappingLoaded(env, gs, docs, Entries(m)) && Separate(m)
  {
    EntriesAt(merged);
    DocsAt(own);
    m := AddOwnMappings(env, merged, own);
    BuiltMapping(env, gs, docs, merged, own, m);
  }

  lemma EntriesAt(m: map<string, Mapping>)
    ensures Entries(m).Keys == m.Keys
    ensures forall a :: a in m ==> Entries(m)[a] == m[a].Entry()
    ensures RootsOk(Entries(m)) <==> RootsApart(m) && forall a :: a in m ==> RootFits(m[a].Entry())
  {
    assert forall a :: a in m ==> Entries(m)[a] == m[a].Entry();
    if RootsOk(Entries(m)) {
      assert forall a :: a in m ==> RootFits(Entries(m)[a]);
      forall a, b | a in m && b in m && a != b && m[a].root != null
        ensures m[a].root != m[b].root
      {
        assert Entries(m)[a].root != Entries(m)[b].root;
      }
    }
  }

  lemma DocsAt(m: map<string, Mapping>)
    ensures Docs(m).Keys == m.Keys
    ensures forall a :: a in m ==> Docs(m)[a] == EntryDoc(m[a].Entry())
  {
  }

  lemma BuiltMapping(env: Env, gs: seq<GroupState>, docs: map<string, MappingDoc>,
                     merged: map<string, Mapping>, own: map<string, Mapping>, m: map<string, Mapping>)
    requires forall i :: 0 <= i < |gs| ==> Opened(gs[i])
    requires Entries(merged) == MergeGroups(gs)
    requires docs.Keys == own.Keys && forall a :: a in own ==> docs[a] == EntryDoc(own[a].Entry())
    requires RootsApart(m)
    requires RootsOk(MergeGroups(gs))
    requires forall a :: a in m <==> a in merged || (a in own && Usable(env, docs[a]))
    requires forall a :: a in m ==>
               if a in own && Usable(env, docs[a]) then EntryOf(docs[a], m[a].Entry()) else m[a] == merged[a]
    ensures MappingLoaded(env, gs, docs, Entries(m))
  {
    EntriesAt(m);
    EntriesAt(merged);
    forall a | a in m
      ensures RootFits(m[a].Entry())
    {
      assert !(a in own && Usable(env, docs[a])) ==> m[a].Entry() == MergeGroups(gs)[a];
    }
    assert RootsOk(Entries(m));
  }

  /** Encrypts and decrypts the password; one that does not decrypt leaves the runtime value. */
  method FinishPassword(c: Primitives, text: Bytes, runtime: Bytes, ghost doc: UserDoc, ghost prev: Option<UserState>)
    returns (stored: Bytes, password: Bytes)
    requires c.Lawful() && SourceOutcome(c, PasswordSource(doc, prev)) != Panic
    requires Restored(c, PasswordSource(doc, prev), text)
    requires runtime == Carried(doc.password, OldPassword(prev))
    ensures SourceStored(c, PasswordSource(doc, prev), stored)
    ensures password == LoadedPassword(c, doc, prev)
  {
    stored := SealCredential(c, text);
    password := runtime;
    SourceReopens(c, PasswordSource(doc, prev), stored);
    if stored != [] {
      match Decrypt(c, stored) {
        case Ok(dec) => password := dec;
        case Err =>
      }
    }
  }

  /** The same for the public key; one that does not decrypt is used as it stands. */
  method FinishPubKey(env: Env, text: Bytes, runtime: Bytes, ghost doc: UserDoc, ghost prev: Option<UserState>)
    returns (stored: Bytes, pubkey: Bytes, fp: Option<string>)
    requires env.Lawful() && SourceOutcome(env.cipher, PubKeySource(doc, prev)) != Panic
    requires Restored(env.cipher, PubKeySource(doc, prev), text)
    requires runtime == Carried(doc.pubkey, OldPubKey(prev))
    ensures SourceStored(env.cipher, PubKeySource(doc, prev), stored)
    ensures pubkey == LoadedPubKey(env.cipher, doc, prev)
    ensures fp == env.fingerprint(pubkey)
  {
    stored := SealCredential(env.cipher, text);
    pubkey, fp := runtime, None;
    SourceReopens(env.cipher, PubKeySource(doc, prev), stored);
    if stored != [] {
      match Decrypt(env.cipher, stored) {
        case Ok(dec) => pubkey := dec;
        case Err => pubkey := stored;
      }
      fp := env.fingerprint(pubkey);
    }
  }

  /** What SetUp asks of a filter and a mapping. */
  ghost predicate FilterAndMapping(env: Env, gs: seq<GroupState>, doc: UserDoc, f: Filter, m: map<string, MapEntry>) {
    && f == Filter(doc.filter,
                   MergedAll(Parsed(env.parser, doc.filter.whitelist), Whitelists(gs)),
                   MergedAll(Parsed(env.parser, doc.filter.blacklist), Blacklists(gs)))
    && (forall i :: 0 <= i < |gs| ==> Opened(gs[i]))
    && MappingLoaded(env, gs, doc.mapping, m)
  }

  /** The group part of setting up: filters and mapping. */
  method MergeGroupsInto(env: Env, doc: UserDoc, own: map<string, Mapping>, groups: map<string, Group>,
                         ghost docs: map<string, GroupDoc>, ghost states: map<string, GroupState>)
    returns (f: Filter, m: map<string, Mapping>)
    requires GroupsUsable(env, doc, groups, docs, states) && OwnDecoded(own, doc)
    ensures FilterAndMapping(env, UserGroups(env, states, doc), doc, f, Entries(m)) && Separate(m)
  {
    var parsed := ParseFilter(env.parser, Filter(doc.filter, [], []));
    var names := ListGroupNames(env.parser.trim, doc.groups);
    assert forall i :: 0 <= i < |names| ==> names[i] in names;
    var merged;
    f, merged := MergeUserGroups(parsed, names, groups, states);
    MergedRootsOk(env, docs, states, names);
    m := BuildMapping(env, merged, own, doc.mapping, Known(states, names));
  }

  /** What RestoreCredential has left of both credentials of the user. */
  ghost predicate BothRestored(env: Env, doc: UserDoc, prev: Option<UserState>,
                               password: Credential, pubkey: Credential)
  {
    && Restored(env.cipher, PasswordSource(doc, prev), password.stored)
    && password.runtime == Carried(doc.password, OldPassword(prev))
    && Restored(env.cipher, PubKeySource(doc, prev), pubkey.stored)
    && pubkey.runtime == Carried(doc.pubkey, OldPubKey(prev))
  }

  /** What CredentialsLoaded asks of both. */
  ghost predicate BothFinished(env: Env, doc: UserDoc, prev: Option<UserState>,
                               password: Credential, pubkey: Credential)
  {
    && SourceStored(env.cipher, PasswordSource(doc, prev), password.stored)
    && password.runtime == LoadedPassword(env.cipher, doc, prev)
    && SourceStored(env.cipher, PubKeySource(doc, prev), pubkey.stored)
    && pubkey.runtime == LoadedPubKey(env.cipher, doc, prev)
  }

  /** What setting up a user needs of the groups: those it names are opened, and their objects are as stated. */
  ghost predicate GroupsUsable(env: Env, doc: UserDoc, groups: map<string, Group>,
                               docs: map<string, GroupDoc>, states: map<string, GroupState>)
    reads groups.Values, set g, m | g in groups.Values && m in g.mapping.Values :: m
  {
    && GroupsReady(env, docs, states) && Reflects(groups, states)
    && forall g :: g in GroupNames(env.parser.trim, doc.groups) && g in groups ==> Opened(states[g])
  }

  /** The decoded mappings of the user's own. */
  ghost predicate OwnDecoded(own: map<string, Mapping>, doc: UserDoc)
    reads own.Values
  {
    Docs(own) == doc.mapping && forall a :: a in own ==> own[a].root == null
  }

  method FinishCredentials(env: Env, password: Credential, pubkey: Credential,
                           ghost doc: UserDoc, ghost prev: Option<UserState>)
    returns (password': Credential, pubkey': Credential, fp: Option<string>)
    requires env.Lawful() && CredentialsSafe(env.cipher, doc, prev) && BothRestored(env, doc, prev, password, pubkey)
    ensures BothFinished(env, doc, prev, password', pubkey') && fp == env.fingerprint(pubkey'.runtime)
  {
    var storedPassword, plainPassword := FinishPassword(env.cipher, password.stored, password.runtime, doc, prev);
    var storedPubKey, plainPubKey;
    storedPubKey, plainPubKey, fp := FinishPubKey(env, pubkey.stored, pubkey.runtime, doc, prev);
    password', pubkey' := Credential(storedPassword, plainPassword), Credential(storedPubKey, plainPubKey);
  }

  /** Sets up a user that has a credential. */
  method BuildUser(env: Env, login: string, doc: UserDoc, own: map<string, Mapping>, groups: map<string, Group>,
                   password: Credential, pubkey: Credential, ghost prev: Option<UserState>,
                   ghost docs: map<string, GroupDoc>, ghost states: map<string, GroupState>)
    returns (user: User, fp: Option<string>, ghost u: UserState)
    requires env.Lawful() && CredentialsSafe(env.cipher, doc, prev) && !Skipped(doc, prev)
    requires BothRestored(env, doc, prev, password, pubkey)
    requires GroupsUsable(env, doc, groups, docs, states) && OwnDecoded(own, doc)
    ensures fresh(user) && user.State() == u && Separate(user.mapping)
    ensures UserLoaded(env, states, login, doc, prev, u) && fp == env.fingerprint(u.pubkey)
  {
    var f, m := MergeGroupsInto(env, doc, own, groups, docs, states);
    ghost var entries := Entries(m);
    var password', pubkey';
    password', pubkey', fp := FinishCredentials(env, password, pubkey, doc, prev);
    user := AssembleUser(login, doc, own, password', pubkey', f, m, entries);
    u := UserOf(login, doc, password', pubkey', f, entries);
    UserSetUp(env, states, login, doc, prev, password', pubkey', f, entries);
  }

  function UserOf(login: string, doc: UserDoc, password: Credential, pubkey: Credential,
                     f: Filter, m: map<string, MapEntry>): UserState
  {
    DecodedUser(doc).(storedPassword := password.stored, storedPubKey := pubkey.stored,
                      password := password.runtime, pubkey := pubkey.runtime,
                      login := login, filter := f, mapping := m)
  }

  method AssembleUser(login: string, doc: UserDoc, own: map<string, Mapping>, password: Credential, pubkey: Credential,
                      f: Filter, m: map<string, Mapping>, ghost entries: map<string, MapEntry>)
    returns (user: User)
    requires Docs(own) == doc.mapping && Entries(m) == entries
    ensures fresh(user) && user.mapping == m
    ensures user.State() == UserOf(login, doc, password, pubkey, f, entries)
  {
    user := NewUser(doc, own, password.stored, password.runtime, pubkey.stored, pubkey.runtime);
    user.SetUp(login, f, m);
  }

  /** The body of LoadConfig's loop over the users, with the decoding of the user. */
  method LoadUser(env: Env, login: string, doc: UserDoc, oldPassword: Option<Credential>, oldPubKey: Option<Credential>,
                  groups: map<string, Group>, ghost prev: Option<UserState>,
                  ghost docs: map<string, GroupDoc>, ghost states: map<string, GroupState>)
    returns (user: User, fp: Option<string>, ghost u: UserState)
    requires env.Lawful() && CredentialsSafe(env.cipher, doc, prev)
    requires oldPassword == OldPassword(prev) && oldPubKey == OldPubKey(prev)
    requires GroupsReady(env, docs, states) && Reflects(groups, states)
    requires !Skipped(doc, prev) ==> GroupsUsable(env, doc, groups, docs, states)
    ensures fresh(user) && user.State() == u && Separate(user.mapping)
    ensures UserLoaded(env, states, login, doc, prev, u) && fp == env.fingerprint(u.pubkey)
  {
    var own := DecodeOwn(doc.mapping);
    var password, pubkey := RestoreBoth(env, doc, oldPassword, oldPubKey, prev);
    if password.stored == [] && pubkey.stored == [] {
      user := NewUser(doc, own, password.stored, password.runtime, pubkey.stored, pubkey.runtime);
      fp, u := None, user.State();
      SkippedUser(env, states, login, doc, prev, u);
    } else {
      user, fp, u := BuildUser(env, login, doc, own, groups, password, pubkey, prev, docs, states);
    }
  }

  method RestoreBoth(env: Env, doc: UserDoc, oldPassword: Option<Credential>, oldPubKey: Option<Credential>,
                     ghost prev: Option<UserState>)
    returns (password: Credential, pubkey: Credential)
    requires oldPassword == OldPassword(prev) && oldPubKey == OldPubKey(prev)
    ensures BothRestored(env, doc, prev, password, pubkey)
    ensures Skipped(doc, prev) <==> password.stored == [] && pubkey.stored == []
  {
    var storedPassword, runtimePassword := RestoreCredential(env.cipher, doc.password, oldPassword, true);
    var storedPubKey, runtimePubKey := RestoreCredential(env.cipher, doc.pubkey, oldPubKey, false);
    password, pubkey := Credential(storedPassword, runtimePassword), Credential(storedPubKey, runtimePubKey);
  }

  method NewUser(doc: UserDoc, own: map<string, Mapping>,
                 storedPassword: Bytes, password: Bytes, storedPubKey: Bytes, pubkey: Bytes)
    returns (user: User)
    requires Docs(own) == doc.mapping
    ensures fresh(user) && user.mapping == map[]
    ensures user.State() == DecodedUser(doc).(storedPassword := storedPassword, storedPubKey := storedPubKey,
                                              password := password, pubkey := pubkey)
  {
    user := new User(doc, own);
    user.SetCredentials(storedPassword, password, storedPubKey, pubkey);
  }

  lemma UserSetUp(env: Env, states: map<string, GroupState>, login: string, doc: UserDoc, prev: Option<UserState>,
                  password: Credential, pubkey: Credential, f: Filter, m: map<string, MapEntry>)
    requires !Skipped(doc, prev) && BothFinished(env, doc, prev, password, pubkey)
    requires FilterAndMapping(env, UserGroups(env, states, doc), doc, f, m)
    ensures UserLoaded(env, states, login, doc, prev, UserOf(login, doc, password, pubkey, f, m))
  {
  }

  lemma SkippedUser(env: Env, states: map<string, GroupState>, login: string,
                    doc: UserDoc, prev: Option<UserState>, u: UserState)
    requires PasswordSource(doc, prev) == Keep([]) && PubKeySource(doc, prev) == Keep([])
    requires u == DecodedUser(doc).(storedPassword := [], storedPubKey := [],
                                    password := Carried(doc.password, OldPassword(prev)),
                                    pubkey := Carried(doc.pubkey, OldPubKey(prev)))
    ensures UserLoaded(env, states, login, doc, prev, u)
    ensures u.password == [] && u.pubkey == []
  {
  }
}
