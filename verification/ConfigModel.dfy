/**
  Values of the configuration engine (internal/config.go): the document that JSON carries, the
  state that the server keeps, and what a load and an export do to that state.

  A document has the exported fields only; encoding drops the others and decoding leaves them zero.
  */
module ConfigModel {
  import opened Wrappers
  import opened Strings
  import opened Cipher
  import opened IpFilter
  import opened FilterLists

  const DASH: Bytes := [0x2D]

  // ---------------------------------------------------------------- documents

  /** The mode strings "ro", "rw" and "exec", and any other string: modes are not validated. */
  datatype Mode = ReadOnly | ReadWrite | Exec | Other(text: string)

  datatype FilterDoc = FilterDoc(whitelist: string, blacklist: string)
  datatype MappingDoc = MappingDoc(path: string, mode: Mode)
  datatype GroupDoc = GroupDoc(mapping: map<string, Option<MappingDoc>>, filter: FilterDoc)
  datatype UserDoc = UserDoc(
    password: Bytes, pubkey: Bytes, maxSessions: int, groups: string, filter: FilterDoc,
    mapping: map<string, MappingDoc>)
  datatype HttpDoc = HttpDoc(addr: string, url: Bytes, username: Bytes, password: Bytes, filter: FilterDoc)
  datatype ConfigDoc = ConfigDoc(
    addr: string, http: HttpDoc, uid: nat, gid: nat, hostKey: Bytes,
    groups: map<string, GroupDoc>, users: map<string, UserDoc>)

  // ---------------------------------------------------------------- server state

  /** An opened directory. Two openings of one path are two handles. */
  class Root {
    const path: string

    constructor (path: string)
      ensures this.path == path
    {
      this.path := path;
    }
  }

  datatype Filter = Filter(doc: FilterDoc, whitelist: seq<IPNet>, blacklist: seq<IPNet>)
  datatype MapEntry = MapEntry(path: string, mode: Mode, root: Root?)
  datatype GroupState = GroupState(mapping: map<string, Option<MapEntry>>, filter: Filter)
  datatype UserState = UserState(
    storedPassword: Bytes, storedPubKey: Bytes, maxSessions: int, groups: string, filter: Filter,
    own: map<string, MappingDoc>,
    login: string, password: Bytes, pubkey: Bytes, mapping: map<string, MapEntry>)
  datatype HttpState = HttpState(
    addr: string,
    storedUrl: Bytes, url: Bytes,
    storedUsername: Bytes, username: Bytes,
    storedPassword: Bytes, password: Bytes,
    token: string, filter: Filter)
  datatype ConfigState = ConfigState(
    addr: string, http: HttpState, uid: nat, gid: nat, storedHostKey: Bytes, hostKey: Bytes,
    groups: map<string, GroupState>, users: map<string, UserState>)

  /** The current config, if any was loaded, and the login each indexed fingerprint leads to. */
  datatype ServerState = ServerState(config: Option<ConfigState>, index: map<string, string>) {
    function Users(): map<string, UserState> {
      if config.Some? then config.value.users else map[]
    }

    function User(login: string): Option<UserState> {
      if login in Users() then Some(Users()[login]) else None
    }
  }

  /** What the engine takes from outside. */
  datatype Env = Env(
    cipher: Primitives,
    parser: EntryParser,
    fingerprint: Bytes -> Option<string>,
    canOpen: string -> bool)
  {
    ghost predicate Lawful() {
      cipher.Lawful() && parser.Lawful() && fingerprint([]) == None
    }
  }

  // ---------------------------------------------------------------- JSON projection

  function EntryDoc(e: MapEntry): MappingDoc {
    MappingDoc(e.path, e.mode)
  }

  function GroupDocOf(g: GroupState): GroupDoc {
    GroupDoc(map a | a in g.mapping :: if g.mapping[a].None? then None else Some(EntryDoc(g.mapping[a].value)),
             g.filter.doc)
  }

  function UserDocOf(u: UserState): UserDoc {
    UserDoc(u.storedPassword, u.storedPubKey, u.maxSessions, u.groups, u.filter.doc, u.own)
  }

  function DocOf(c: ConfigState): ConfigDoc {
    ConfigDoc(
      c.addr,
      HttpDoc(c.http.addr, c.http.storedUrl, c.http.storedUsername, c.http.storedPassword, c.http.filter.doc),
      c.uid, c.gid, c.storedHostKey,
      map g | g in c.groups :: GroupDocOf(c.groups[g]),
      map l | l in c.users :: UserDocOf(c.users[l]))
  }

  // ---------------------------------------------------------------- secure fields

  /** The runtime value processSecureField leaves, given the one it starts from. */
  function SecureRuntime(c: Primitives, json: Bytes, runtime: Bytes, prev: Bytes): Bytes {
    var v := if json == [] then runtime else
             match Decrypt(c, json) case Ok(d) => d case Err => json case Panic => [];
    if v == [] then prev else v
  }

  /** The stored value it leaves: a fresh ciphertext, or what was there if there is nothing to encrypt. */
  ghost predicate SecureStored(c: Primitives, json: Bytes, runtime: Bytes, stored: Bytes) {
    if runtime == [] then stored == json else Encrypts(c, stored, runtime)
  }

  method ProcessSecureField(c: Primitives, jsonValue: Bytes, runtimeValue: Bytes, oldValue: Bytes)
    returns (json: Bytes, runtime: Bytes)
    requires Decrypt(c, jsonValue) != Panic
    ensures runtime == SecureRuntime(c, jsonValue, runtimeValue, oldValue)
    ensures SecureStored(c, jsonValue, runtime, json)
  {
    json, runtime := jsonValue, runtimeValue;
    if json != [] {
      match Decrypt(c, json) {
        case Ok(val) => runtime := val;
        case Err => runtime := json;
      }
    }
    if runtime == [] && oldValue != [] {
      runtime := oldValue;
    }
    if runtime != [] {
      json := Seal(c, runtime);
    }
  }

  /**
    Whatever was in the document and whatever the old value, the stored text decrypts to the runtime
    value exactly if that value has at most 65533 bytes.
    */
  lemma SecureFieldConsistent(c: Primitives, json: Bytes, prev: Bytes, stored: Bytes)
    requires c.Lawful() && Decrypt(c, json) != Panic
    requires SecureStored(c, json, SecureRuntime(c, json, [], prev), stored)
    ensures Decrypt(c, stored) == Ok(SecureRuntime(c, json, [], prev))
       <==> |SecureRuntime(c, json, [], prev)| <= MAX_SECRET
  {
    var r := SecureRuntime(c, json, [], prev);
    if r != [] {
      var nonce: Bytes :| stored == Encrypted(c, nonce, r);
      RoundTripBound(c, nonce, r);
    }
  }

  /** Processing the stored text again keeps a runtime value that is not empty, whatever the old one. */
  lemma SecureFieldStable(c: Primitives, json: Bytes, prev: Bytes, stored: Bytes, prev': Bytes)
    requires c.Lawful() && Decrypt(c, json) != Panic
    requires SecureStored(c, json, SecureRuntime(c, json, [], prev), stored)
    requires 0 < |SecureRuntime(c, json, [], prev)| <= MAX_SECRET
    ensures SecureRuntime(c, stored, [], prev') == SecureRuntime(c, json, [], prev)
  {
    SecureFieldConsistent(c, json, prev, stored);
    DecryptOfEncrypted(c, stored, SecureRuntime(c, json, [], prev));
  }

  // ---------------------------------------------------------------- credentials

  /** A stored and a runtime form of one credential. */
  datatype Credential = Credential(stored: Bytes, runtime: Bytes)

  /** Where the stored form comes from: a text that is kept, or a runtime value encrypted anew. */
  datatype Source = Keep(text: Bytes) | Fresh(plain: Bytes)

  /** A blank credential falls back to the one of the login's old user; "-" removes a password. */
  function CredentialSource(json: Bytes, prev: Option<Credential>, removable: bool): Source {
    if prev.None? then
      Keep(json)
    else if json == [] then
      if prev.value.stored == [] && prev.value.runtime != [] then Fresh(prev.value.runtime) else Keep(prev.value.stored)
    else if removable && json == DASH then
      Keep([])
    else
      Keep(json)
  }

  /** The runtime value the user has before the stored form is decrypted. */
  function Carried(json: Bytes, prev: Option<Credential>): Bytes {
    if prev.Some? && json == [] then prev.value.runtime else []
  }

  ghost predicate SourceStored(c: Primitives, src: Source, stored: Bytes) {
    match src
    case Fresh(p) => Encrypts(c, stored, p)
    case Keep(t) => if t == [] || IsEncrypted(t) then stored == t else Encrypts(c, stored, t)
  }

  /** What decrypting the stored form gives. */
  function SourceOutcome(c: Primitives, src: Source): Outcome {
    match src
    case Fresh(p) => Reopened(p)
    case Keep(t) => if t == [] then Ok([]) else if IsEncrypted(t) then Decrypt(c, t) else Reopened(t)
  }

  function OldPassword(prev: Option<UserState>): Option<Credential> {
    if prev.None? then None else Some(Credential(prev.value.storedPassword, prev.value.password))
  }

  function OldPubKey(prev: Option<UserState>): Option<Credential> {
    if prev.None? then None else Some(Credential(prev.value.storedPubKey, prev.value.pubkey))
  }

  function PasswordSource(doc: UserDoc, prev: Option<UserState>): Source {
    CredentialSource(doc.password, OldPassword(prev), true)
  }

  function PubKeySource(doc: UserDoc, prev: Option<UserState>): Source {
    CredentialSource(doc.pubkey, OldPubKey(prev), false)
  }

  function LoadedPassword(c: Primitives, doc: UserDoc, prev: Option<UserState>): Bytes {
    match SourceOutcome(c, PasswordSource(doc, prev))
    case Ok(d) => d
    case _ => Carried(doc.password, OldPassword(prev))
  }

  /** A public key that does not decrypt is taken as it stands. */
  function LoadedPubKey(c: Primitives, doc: UserDoc, prev: Option<UserState>): Bytes {
    var src := PubKeySource(doc, prev);
    match SourceOutcome(c, src)
    case Ok(d) => d
    case _ => if src.Keep? then src.text else src.plain
  }

  /** A user with neither credential is left in the table but not set up. */
  predicate Skipped(doc: UserDoc, prev: Option<UserState>) {
    PasswordSource(doc, prev) == Keep([]) && PubKeySource(doc, prev) == Keep([])
  }

  // ---------------------------------------------------------------- group names

  /** The trimmed names in first-appearance order, without blanks and repetitions. */
  function Distinct(trim: string -> string, pieces: seq<string>): seq<string> {
    if |pieces| == 0 then
      []
    else
      var names := Distinct(trim, pieces[..|pieces| - 1]);
      var n := trim(pieces[|pieces| - 1]);
      if n == "" || n in names then names else names + [n]
  }

  function GroupNames(trim: string -> string, groups: string): seq<string> {
    Distinct(trim, Split(groups, ','))
  }

  ghost predicate Named(trim: string -> string, pieces: seq<string>, n: string) {
    exists i :: 0 <= i < |pieces| && trim(pieces[i]) == n
  }

  ghost predicate NamedBefore(trim: string -> string, pieces: seq<string>, n: string, m: string) {
    exists i :: 0 <= i < |pieces| && trim(pieces[i]) == n && forall j :: 0 <= j <= i ==> trim(pieces[j]) != m
  }

  /** The names are distinct and each stands before the first occurrence of those that follow it. */
  ghost predicate InFirstOrder(trim: string -> string, pieces: seq<string>, ns: seq<string>) {
    forall i, j :: 0 <= i < j < |ns| ==> ns[i] != ns[j] && NamedBefore(trim, pieces, ns[i], ns[j])
  }

  /** The list of group names: exactly the names that are written, once each, in order of appearance. */
  lemma {:induction false} DistinctNames(trim: string -> string, pieces: seq<string>)
    ensures forall n :: n in Distinct(trim, pieces) <==> n != "" && Named(trim, pieces, n)
    ensures InFirstOrder(trim, pieces, Distinct(trim, pieces))
  {
    if |pieces| > 0 {
      var init, last := pieces[..|pieces| - 1], pieces[|pieces| - 1];
      DistinctNames(trim, init);
      var before, ns := Distinct(trim, init), Distinct(trim, pieces);
      assert forall k :: 0 <= k < |init| ==> trim(init[k]) == trim(pieces[k]);
      forall n
        ensures Named(trim, pieces, n) <==> Named(trim, init, n) || trim(last) == n
      {
        if Named(trim, init, n) {
          var i :| 0 <= i < |init| && trim(init[i]) == n;
          assert trim(pieces[i]) == n;
        }
      }
      forall i, j | 0 <= i < j < |ns|
        ensures ns[i] != ns[j] && NamedBefore(trim, pieces, ns[i], ns[j])
      {
        var k;
        if j < |before| {
          k := FirstOccurrence(trim, init, before, i, j);
        } else {
          assert ns[i] in before;
          k :| 0 <= k < |init| && trim(init[k]) == ns[i];
        }
        assert trim(pieces[k]) == ns[i];
      }
    }
  }

  lemma FirstOccurrence(trim: string -> string, pieces: seq<string>, ns: seq<string>, i: nat, j: nat)
    returns (k: nat)
    requires InFirstOrder(trim, pieces, ns) && i < j < |ns|
    ensures k < |pieces| && trim(pieces[k]) == ns[i] && ns[i] != ns[j]
    ensures forall q :: 0 <= q <= k ==> trim(pieces[q]) != ns[j]
  {
    assert NamedBefore(trim, pieces, ns[i], ns[j]);
    k :| 0 <= k < |pieces| && trim(pieces[k]) == ns[i] && forall q :: 0 <= q <= k ==> trim(pieces[q]) != ns[j];
  }

  // ---------------------------------------------------------------- merging mappings

  /** The groups of the list that exist, in order. */
  function Known(groups: map<string, GroupState>, names: seq<string>): seq<GroupState> {
    if |names| == 0 then
      []
    else
      var gs := Known(groups, names[..|names| - 1]);
      var n := names[|names| - 1];
      if n in groups then gs + [groups[n]] else gs
  }

  function Whitelists(gs: seq<GroupState>): seq<seq<IPNet>> {
    seq(|gs|, i requires 0 <= i < |gs| => gs[i].filter.whitelist)
  }

  function Blacklists(gs: seq<GroupState>): seq<seq<IPNet>> {
    seq(|gs|, i requires 0 <= i < |gs| => gs[i].filter.blacklist)
  }

  /** Every mapping of the group was opened. */
  predicate Opened(g: GroupState) {
    forall a :: a in g.mapping ==> g.mapping[a].Some?
  }

  /** An exec mapping replaces whatever the alias had; another mapping only fills a free alias. */
  predicate Takes(acc: map<string, MapEntry>, a: string, e: MapEntry) {
    e.mode == Exec || a !in acc
  }

  function MergeGroup(acc: map<string, MapEntry>, g: GroupState): map<string, MapEntry>
    requires Opened(g)
  {
    map a | a in acc.Keys + g.mapping.Keys ::
      if a in g.mapping && Takes(acc, a, g.mapping[a].value) then g.mapping[a].value else acc[a]
  }

  function MergeGroups(gs: seq<GroupState>): map<string, MapEntry>
    requires forall i :: 0 <= i < |gs| ==> Opened(gs[i])
  {
    if |gs| == 0 then map[] else MergeGroup(MergeGroups(gs[..|gs| - 1]), gs[|gs| - 1])
  }

  /** Group `i` maps the alias. */
  predicate Maps(gs: seq<GroupState>, i: int, a: string) {
    0 <= i < |gs| && a in gs[i].mapping && gs[i].mapping[a].Some?
  }

  function EntryAt(gs: seq<GroupState>, i: int, a: string): MapEntry
    requires Maps(gs, i, a)
  {
    gs[i].mapping[a].value
  }

  predicate IsExec(gs: seq<GroupState>, i: int, a: string) {
    Maps(gs, i, a) && EntryAt(gs, i, a).mode == Exec
  }

  /** Group `i` is the last one to map the alias in exec mode. */
  ghost predicate LastExec(gs: seq<GroupState>, i: int, a: string) {
    IsExec(gs, i, a) && forall j :: i < j < |gs| ==> !IsExec(gs, j, a)
  }

  /** No group maps the alias in exec mode, and group `i` is the first one to map it. */
  ghost predicate FirstPlain(gs: seq<GroupState>, i: int, a: string) {
    && Maps(gs, i, a)
    && (forall j :: 0 <= j < |gs| ==> !IsExec(gs, j, a))
    && (forall j :: 0 <= j < i ==> !Maps(gs, j, a))
  }

  /**
    What the merge loops leave at an alias: the last exec mapping of the groups if there is one,
    else the first mapping, else nothing.
    */
  lemma {:induction false} MergeClosedForm(gs: seq<GroupState>, a: string)
    requires forall i :: 0 <= i < |gs| ==> Opened(gs[i])
    ensures a in MergeGroups(gs) <==> exists i :: Maps(gs, i, a)
    ensures a in MergeGroups(gs) ==>
              exists i :: (LastExec(gs, i, a) || FirstPlain(gs, i, a)) && MergeGroups(gs)[a] == EntryAt(gs, i, a)
  {
    if |gs| > 0 {
      var init, last := gs[..|gs| - 1], gs[|gs| - 1];
      MergeClosedForm(init, a);
      assert forall i :: 0 <= i < |init| ==> (Maps(gs, i, a) <==> Maps(init, i, a));
      assert forall i :: Maps(init, i, a) ==> EntryAt(gs, i, a) == EntryAt(init, i, a);
      var acc := MergeGroups(init);
      if a in last.mapping {
        assert Maps(gs, |init|, a);
      }
      if a in last.mapping && Takes(acc, a, last.mapping[a].value) {
        assert LastExec(gs, |init|, a) || FirstPlain(gs, |init|, a);
      } else if a in acc {
        var i :| (LastExec(init, i, a) || FirstPlain(init, i, a)) && acc[a] == EntryAt(init, i, a);
        assert !IsExec(gs, |init|, a);
        assert IsExec(gs, i, a) <==> IsExec(init, i, a);
        assert forall j :: 0 <= j < |init| ==> (IsExec(gs, j, a) <==> IsExec(init, j, a));
        assert LastExec(gs, i, a) || FirstPlain(gs, i, a);
      }
    }
  }
}
