/** The loops of LoadConfig over groups and users, each proved against ConfigSpec. */
module Loading {
  import opened FilterLists
  import opened ConfigModel
  import opened ConfigSpec
  import opened ServerObjects

  // ---------------------------------------------------------------- groups

  method ParseFilter(p: EntryParser, f: Filter) returns (f': Filter)
    ensures f' == ParsedFilter(p, f.doc)
  {
    var whitelist := ParseIPNetList(p, f.doc.whitelist);
    var blacklist := ParseIPNetList(p, f.doc.blacklist);
    f' := Filter(f.doc, whitelist, blacklist);
  }

  function ParsedGroup(p: EntryParser, doc: GroupDoc): GroupState {
    DecodedGroup(doc).(filter := ParsedFilter(p, doc.filter))
  }

  /** os.OpenRoot: a new handle, or nothing if the path cannot be opened. */
  method OpenRoot(env: Env, path: string) returns (r: Root?)
    ensures r != null <==> env.canOpen(path)
    ensures r != null ==> fresh(r) && r.path == path
  {
    r := null;
    if env.canOpen(path) {
      r := new Root(path);
    }
  }

  lemma DecodedEntries(p: EntryParser, g: Group, doc: GroupDoc)
    requires NoNulls(doc) && g.State() == ParsedGroup(p, doc)
    ensures g.mapping.Keys == doc.mapping.Keys
    ensures forall a :: a in doc.mapping ==>
              && g.mapping[a] != null
              && g.mapping[a].Entry() == MapEntry(doc.mapping[a].value.path, doc.mapping[a].value.mode, null)
  {
    assert g.State().mapping.Keys == g.mapping.Keys;
    assert ParsedGroup(p, doc).mapping.Keys == doc.mapping.Keys;
    forall a | a in doc.mapping
      ensures g.mapping[a] != null
      ensures g.mapping[a].Entry() == MapEntry(doc.mapping[a].value.path, doc.mapping[a].value.mode, null)
    {
      assert g.State().mapping[a] == ParsedGroup(p, doc).mapping[a];
    }
  }

  /** The mapping object was written as `d`. */
  ghost predicate Written(m: Mapping?, d: MappingDoc)
    reads m
  {
    m != null && m.path == d.path && m.mode == d.mode
  }

  /** The object has a handle of its own exactly if its directory opens. */
  ghost predicate Handled(env: Env, m: Mapping?)
    reads m
  {
    && m != null
    && (m.root != null <==> m.mode != Exec && env.canOpen(m.path))
    && (m.root != null ==> m.root.path == m.path)
  }

  method OpenMapping(env: Env, g: Group, a: string, m: Mapping)
    requires a in g.mapping && g.mapping[a] == m && m.root == null
    modifies g`mapping, m`root
    ensures Handled(env, m) && (m.root != null ==> fresh(m.root))
    ensures g.mapping == if m.mode == Exec || m.root != null then old(g.mapping) else old(g.mapping)[a := null]
  {
    if m.mode != Exec {
      m.root := OpenRoot(env, m.path);
      if m.root == null {
        g.mapping := g.mapping[a := null];
      }
    }
  }

  /** The entry that a mapping object leaves in its group: itself, or null if it has to be opened and is not. */
  ghost predicate Left(m: Mapping, x: Mapping?)
    reads m
  {
    x == if m.mode == Exec || m.root != null then m else null
  }

  /** No two objects share a handle. */
  ghost predicate RootsApart(ms: map<string, Mapping>)
    reads ms.Values
  {
    forall a, b :: a in ms && b in ms && a != b && ms[a].root != null ==> ms[a].root != ms[b].root
  }

  /** Opens every mapping of the group but the exec ones; one that fails becomes null. */
  method OpenMappings(env: Env, g: Group, ghost ms: map<string, Mapping>, ghost objects: set<Mapping>)
    requires g.mapping == ms && Separate(ms)
    requires forall a :: a in ms ==> ms[a] in objects && ms[a].root == null
    modifies g`mapping, objects`root
    ensures g.mapping.Keys == ms.Keys
    ensures forall a :: a in ms ==> Handled(env, ms[a]) && Left(ms[a], g.mapping[a])
    ensures forall a :: a in ms && ms[a].root != null ==> fresh(ms[a].root)
    ensures RootsApart(ms)
  {
    var todo := g.mapping.Keys;
    while todo != {}
      invariant g.mapping.Keys == ms.Keys
      invariant forall a {:trigger ms[a]} :: a in todo ==> a in ms && g.mapping[a] == ms[a] && ms[a].root == null
      invariant forall a {:trigger ms[a]} :: a in ms && a !in todo ==> Handled(env, ms[a]) && Left(ms[a], g.mapping[a])
      invariant forall a {:trigger ms[a]} :: a in ms && ms[a].root != null ==> fresh(ms[a].root)
      invariant RootsApart(ms)
    {
      var a :| a in todo;
      todo := todo - {a};
      OpenMapping(env, g, a, g.mapping[a]);
    }
  }

  predicate HasRoot(g: GroupState, a: string) {
    a in g.mapping && g.mapping[a].Some? && g.mapping[a].value.root != null
  }

  function RootOf(g: GroupState, a: string): Root
    requires HasRoot(g, a)
  {
    g.mapping[a].value.root
  }

  predicate GroupRootsApart(g: GroupState) {
    forall a, b :: a in g.mapping && b in g.mapping && a != b && HasRoot(g, a) && HasRoot(g, b) ==>
      RootOf(g, a) != RootOf(g, b)
  }

  method OpenGroup(env: Env, g: Group, ghost doc: GroupDoc, ghost objects: set<Mapping>)
    requires NoNulls(doc) && Separate(g.mapping) && g.State() == ParsedGroup(env.parser, doc)
    requires forall a :: a in g.mapping && g.mapping[a] != null ==> g.mapping[a] in objects
    modifies g`mapping, objects`root
    ensures GroupLoaded(env, doc, g.State()) && GroupRootsApart(g.State())
    ensures forall a :: HasRoot(g.State(), a) ==> fresh(RootOf(g.State(), a))
    ensures forall a :: a in g.mapping && g.mapping[a] != null ==> g.mapping[a] in objects
  {
    DecodedEntries(env.parser, g, doc);
    ghost var ms: map<string, Mapping> := map a | a in g.mapping :: g.mapping[a];
    assert g.mapping == ms;
    assert forall a :: a in ms ==>
             ms[a].Entry() == MapEntry(doc.mapping[a].value.path, doc.mapping[a].value.mode, null);
    OpenMappings(env, g, ms, objects);
    OpenedGroup(env, g, doc, ms);
  }

  lemma OpenedGroup(env: Env, g: Group, doc: GroupDoc, ms: map<string, Mapping>)
    requires NoNulls(doc) && g.filter == ParsedFilter(env.parser, doc.filter)
    requires g.mapping.Keys == ms.Keys == doc.mapping.Keys
    requires forall a :: a in ms ==> MappingDoc(ms[a].path, ms[a].mode) == doc.mapping[a].value
    requires forall a :: a in ms ==> Handled(env, ms[a]) && Left(ms[a], g.mapping[a])
    requires RootsApart(ms)
    ensures GroupLoaded(env, doc, g.State()) && GroupRootsApart(g.State())
    ensures forall a :: HasRoot(g.State(), a) ==> a in ms && RootOf(g.State(), a) == ms[a].root
  {
    assert g.State().mapping.Keys == g.mapping.Keys;
    forall a | a in doc.mapping
      ensures if Usable(env, doc.mapping[a].value)
              then g.State().mapping[a].Some? && EntryOf(doc.mapping[a].value, g.State().mapping[a].value)
              else g.State().mapping[a].None?
    {
      assert Handled(env, ms[a]) && Left(ms[a], g.mapping[a]);
    }
  }

  /** The handles of all groups belong to one group and one alias each. */
  ghost predicate AllRootsApart(gs: map<string, GroupState>) {
    && (forall g :: g in gs ==> GroupRootsApart(gs[g]))
    && (forall g, a, h, b :: g in gs && h in gs && g != h && HasRoot(gs[g], a) && HasRoot(gs[h], b) ==>
          RootOf(gs[g], a) != RootOf(gs[h], b))
  }

  lemma ApartStep(gs: map<string, GroupState>, g: string, x: GroupState)
    requires AllRootsApart(gs) && GroupRootsApart(x) && g !in gs
    requires forall a, h, b :: h in gs && HasRoot(x, a) && HasRoot(gs[h], b) ==> RootOf(x, a) != RootOf(gs[h], b)
    ensures AllRootsApart(gs[g := x])
  {
  }

  /** Decodes one group, parses its filter and opens its mappings, all in its own new objects. */
  method LoadGroup(env: Env, doc: GroupDoc) returns (g: Group)
    requires NoNulls(doc)
    ensures fresh(g) && fresh(g.mapping.Values - {null})
    ensures GroupLoaded(env, doc, g.State()) && GroupRootsApart(g.State())
    ensures forall a :: HasRoot(g.State(), a) ==> fresh(RootOf(g.State(), a))
  {
    var m := DecodeMapping(doc.mapping);
    g := new Group(m, Filter(doc.filter, [], []));
    g.filter := ParseFilter(env.parser, g.filter);
    DecodedState(env, g, doc);
    OpenGroup(env, g, doc, set a | a in m && m[a] != null :: m[a]);
  }

  lemma DecodedState(env: Env, g: Group, doc: GroupDoc)
    requires g.mapping.Keys == doc.mapping.Keys && g.filter == ParsedFilter(env.parser, doc.filter)
    requires forall a :: a in doc.mapping ==>
               if doc.mapping[a].None? then g.mapping[a] == null
               else g.mapping[a] != null &&
                    g.mapping[a].Entry() == MapEntry(doc.mapping[a].value.path, doc.mapping[a].value.mode, null)
    ensures g.State() == ParsedGroup(env.parser, doc)
  {
    assert g.State().mapping == ParsedGroup(env.parser, doc).mapping;
  }

  method LoadGroups(env: Env, docs: map<string, GroupDoc>)
    returns (groups: map<string, Group>, ghost states: map<string, GroupState>)
    requires forall g :: g in docs ==> NoNulls(docs[g])
    ensures groups.Keys == docs.Keys == states.Keys && AllRootsApart(states)
    ensures forall g {:trigger groups[g]} :: g in groups ==>
              fresh(groups[g]) && groups[g].State() == states[g] && GroupLoaded(env, docs[g], states[g])
  {
    groups, states := map[], map[];
    var todo := docs.Keys;
    while todo != {}
      invariant todo <= docs.Keys && groups.Keys == docs.Keys - todo == states.Keys && AllRootsApart(states)
      invariant forall g {:trigger groups[g]} :: g in groups ==>
                  fresh(groups[g]) && groups[g].State() == states[g] && GroupLoaded(env, docs[g], states[g])
    {
      var g :| g in todo;
      todo := todo - {g};
      var x := LoadGroup(env, docs[g]);
      ApartStep(states, g, x.State());
      groups := groups[g := x];
      states := states[g := x.State()];
    }
  }
}
