/**
  The admin token when requests interleave: a config POST reads the token without the mutex
  (internal/http.go:173), loads its body, and writes the token back (internal/http.go:200).
  */
module TokenRaces {
  import opened Wrappers
  import opened ConfigModel
  import opened ConfigSpec
  import opened ConfigRuns

  /** What a POST in progress remembers, and whether it has loaded its body. */
  datatype Held = Held(token: string, loaded: bool)

  datatype Race = Race(server: ServerState, held: map<nat, Held>)

  datatype Action =
    | Whole(op: Op)                         // any other request
    | ReadToken(post: nat)
    | GiveUp(post: nat)                     // its body does not decode
    | LoadBody(post: nat, doc: ConfigDoc)
    | Restore(post: nat)

  ghost predicate Act(env: Env, r: Race, a: Action, r': Race) {
    r.server.config.Some? && r'.server.config.Some? &&
    match a
    case Whole(op) => !op.Post? && Step(env, r.server, op, r'.server) && r'.held == r.held
    case ReadToken(p) => p !in r.held && r' == r.(held := r.held[p := Held(Token(r.server), false)])
    case GiveUp(p) => p in r.held && !r.held[p].loaded && r' == r.(held := r.held - {p})
    case LoadBody(p, d) =>
      && p in r.held && !r.held[p].loaded
      && LoadSafe(env, r.server, d) && Loaded(env, r.server, d, r'.server)
      && r'.held == r.held[p := Held(r.held[p].token, true)]
    case Restore(p) => p in r.held && r' == Race(WithToken(r.server, r.held[p].token), r.held - {p})
  }

  ghost predicate Run(env: Env, races: seq<Race>, actions: seq<Action>) {
    && |races| == |actions| + 1 && races[0].server.config.Some? && races[0].held == map[]
    && forall i :: 0 <= i < |actions| ==> Act(env, races[i], actions[i], races[i + 1])
  }

  lemma RunHasServers(env: Env, races: seq<Race>, actions: seq<Action>, i: nat)
    requires Run(env, races, actions) && i <= |actions|
    ensures races[i].server.config.Some?
  {
    if i > 0 {
      assert Act(env, races[i - 1], actions[i - 1], races[i]);
    }
  }

  /** A POST whose three steps nothing comes between is the POST of the sequential runs. */
  lemma PostIsThreeActions(env: Env, r: Race, p: nat, doc: ConfigDoc, r1: Race, r2: Race, r3: Race)
    requires Act(env, r, ReadToken(p), r1) && Act(env, r1, LoadBody(p, doc), r2) && Act(env, r2, Restore(p), r3)
    ensures Step(env, r.server, Post(Some(doc)), r3.server)
  {
    assert r2.held[p].token == Token(r.server);
    assert WithToken(r3.server, "") == r2.server;
  }

  // ---------------------------------------------------------------- one POST among other requests

  /** POST `p` reads the token in step `i` and restores it in step `k`. */
  predicate Window(actions: seq<Action>, p: nat, i: nat, k: nat) {
    && i < k < |actions| && actions[i] == ReadToken(p) && actions[k] == Restore(p)
    && forall j :: i < j < k ==> actions[j] !in {ReadToken(p), GiveUp(p), Restore(p)}
  }

  lemma {:induction false} HeldInWindow(env: Env, races: seq<Race>, actions: seq<Action>,
                                        p: nat, i: nat, k: nat, n: nat)
    requires Run(env, races, actions) && Window(actions, p, i, k) && i < n <= k
    ensures races[i].server.config.Some? && p in races[n].held && races[n].held[p].token == Token(races[i].server)
  {
    RunHasServers(env, races, actions, i);
    assert Act(env, races[n - 1], actions[n - 1], races[n]);
    ActHasEffect(env, races[n - 1], actions[n - 1], races[n]);
    if n > i + 1 {
      HeldInWindow(env, races, actions, p, i, k, n - 1);
      StaysHeld(races[n - 1], actions[n - 1], races[n], p);
    }
  }

  lemma StaysHeld(r: Race, a: Action, r': Race, p: nat)
    requires r.server.config.Some? && r'.server.config.Some? && Effect(r, a, r') && p in r.held
    requires a !in {ReadToken(p), GiveUp(p), Restore(p)}
    ensures p in r'.held && r'.held[p].token == r.held[p].token
  {
  }

  /** Whatever happens between the two steps is undone: the token is again the one that was read. */
  lemma RestoreBringsBack(env: Env, races: seq<Race>, actions: seq<Action>, p: nat, i: nat, k: nat)
    requires Run(env, races, actions) && Window(actions, p, i, k)
    ensures races[i].server.config.Some? && races[k + 1].server.config.Some?
    ensures Token(races[k + 1].server) == Token(races[i].server)
  {
    HeldInWindow(env, races, actions, p, i, k, k);
    assert Act(env, races[k], actions[k], races[k + 1]);
  }

  /** The action gives out a token: a login that succeeds, or the last step of a POST. */
  predicate Gives(r: Race, a: Action)
    requires r.server.config.Some?
  {
    a.Restore? || (a.Whole? && GoodLogin(r.server, a.op))
  }

  /** Between the states `j` and `n` no token is given out. */
  ghost predicate NoneGiven(env: Env, races: seq<Race>, actions: seq<Action>, j: nat, n: nat)
    requires Run(env, races, actions) && n <= |actions|
  {
    forall q :: j <= q < n && races[q].server.config.Some? ==> !Gives(races[q], actions[q])
  }

  /** The load of a POST clears the token, and so it stays until one is given out. */
  lemma {:induction false} LoadClearsToken(env: Env, races: seq<Race>, actions: seq<Action>, j: nat, n: nat)
    requires Run(env, races, actions) && j < n <= |actions| && actions[j].LoadBody?
    requires NoneGiven(env, races, actions, j + 1, n)
    ensures races[n].server.config.Some? && Token(races[n].server) == ""
  {
    RunHasServers(env, races, actions, n - 1);
    RunHasServers(env, races, actions, n);
    assert Act(env, races[n - 1], actions[n - 1], races[n]);
    ActHasEffect(env, races[n - 1], actions[n - 1], races[n]);
    if n > j + 1 {
      LoadClearsToken(env, races, actions, j, n - 1);
    }
  }

  /** A POST that reads the token after another one has loaded, and before any is given out, leaves no token at all. */
  lemma OverlapLosesToken(env: Env, races: seq<Race>, actions: seq<Action>, p: nat, j: nat, i: nat, k: nat)
    requires Run(env, races, actions) && Window(actions, p, i, k) && j < i && actions[j].LoadBody?
    requires NoneGiven(env, races, actions, j + 1, i)
    ensures races[k + 1].server.config.Some? && Token(races[k + 1].server) == ""
  {
    LoadClearsToken(env, races, actions, j, i);
    RestoreBringsBack(env, races, actions, p, i, k);
  }

  // ---------------------------------------------------------------- against the sequential rule

  /** The action is a good login, a logout or a reload from the file. */
  predicate Sets(r: Race, a: Action)
    requires r.server.config.Some?
  {
    a.Whole? && SetsToken(r.server, a.op)
  }

  /** The token by the rule of sequential runs, in which POSTs do not touch it. */
  ghost function Ruled(env: Env, races: seq<Race>, actions: seq<Action>, n: nat): string
    requires Run(env, races, actions) && n <= |actions|
  {
    RunHasServers(env, races, actions, n);
    if n == 0 then Token(races[0].server)
    else
      RunHasServers(env, races, actions, n - 1);
      if Sets(races[n - 1], actions[n - 1]) then NextToken(races[n - 1].server, actions[n - 1].op)
      else Ruled(env, races, actions, n - 1)
  }

  /**
    A POST that read the token of the rule leaves the token of the rule exactly if the rule's token at
    the end is the one it read: nobody logged in, logged out or reloaded in between to another effect.
    */
  lemma RestoreFollowsRuleExactly(env: Env, races: seq<Race>, actions: seq<Action>, p: nat, i: nat, k: nat)
    requires Run(env, races, actions) && Window(actions, p, i, k)
    requires races[i].server.config.Some? && Token(races[i].server) == Ruled(env, races, actions, i)
    ensures races[k + 1].server.config.Some?
    ensures Token(races[k + 1].server) == Ruled(env, races, actions, k + 1)
       <==> Ruled(env, races, actions, k) == Ruled(env, races, actions, i)
  {
    RestoreBringsBack(env, races, actions, p, i, k);
    RunHasServers(env, races, actions, k);
  }

  /** Nobody sets the token, and no POST begins, while a POST is in progress. */
  ghost predicate Serial(env: Env, races: seq<Race>, actions: seq<Action>)
    requires Run(env, races, actions)
  {
    forall i :: && 0 <= i < |actions| && races[i].server.config.Some?
                && (actions[i].ReadToken? || Sets(races[i], actions[i])) ==>
      races[i].held == map[]
  }

  /** What a serial run is like at any point: a POST in progress remembers the rule's token. */
  ghost predicate InRule(r: Race, token: string) {
    && r.server.config.Some?
    && (forall p, q :: p in r.held && q in r.held ==> p == q)
    && (forall p :: p in r.held ==> r.held[p].token == token)
    && ((forall p :: p in r.held ==> !r.held[p].loaded) ==> Token(r.server) == token)
  }

  lemma {:induction false} SerialInRule(env: Env, races: seq<Race>, actions: seq<Action>, n: nat)
    requires Run(env, races, actions) && Serial(env, races, actions) && n <= |actions|
    ensures InRule(races[n], Ruled(env, races, actions, n))
  {
    if n > 0 {
      var r, a, r' := races[n - 1], actions[n - 1], races[n];
      SerialInRule(env, races, actions, n - 1);
      assert Act(env, r, a, r');
      RunHasServers(env, races, actions, n);
      ActHasEffect(env, r, a, r');
      EffectInRule(r, a, r', Ruled(env, races, actions, n - 1));
    }
  }

  /** What an action does to the token and to what the POSTs remember. */
  predicate Effect(r: Race, a: Action, r': Race)
    requires r.server.config.Some? && r'.server.config.Some?
  {
    var before, after := Token(r.server), Token(r'.server);
    match a
    case Whole(op) => r'.held == r.held && after == if Sets(r, a) then NextToken(r.server, op) else before
    case ReadToken(p) => p !in r.held && r'.held == r.held[p := Held(before, false)] && after == before
    case GiveUp(p) => p in r.held && !r.held[p].loaded && r'.held == r.held - {p} && after == before
    case LoadBody(p, _) => p in r.held && r'.held == r.held[p := Held(r.held[p].token, true)] && after == ""
    case Restore(p) => p in r.held && r'.held == r.held - {p} && after == r.held[p].token
  }

  lemma ActHasEffect(env: Env, r: Race, a: Action, r': Race)
    requires Act(env, r, a, r')
    ensures Effect(r, a, r')
  {
    if a.Whole? {
      StepToken(env, r.server, a.op, r'.server);
    }
  }

  lemma EffectInRule(r: Race, a: Action, r': Race, token: string)
    requires r.server.config.Some? && r'.server.config.Some? && Effect(r, a, r') && InRule(r, token)
    requires a.ReadToken? || Sets(r, a) ==> r.held == map[]
    ensures InRule(r', if Sets(r, a) then NextToken(r.server, a.op) else token)
  {
    match a {
      case Whole(_) =>
      case ReadToken(p) => assert r'.held.Keys == {p};
      case GiveUp(p) => assert r'.held.Keys == {};
      case LoadBody(p, _) => assert r'.held.Keys == {p} && r'.held[p].loaded;
      case Restore(p) => assert r'.held.Keys == {};
    }
  }

  /** Then the rule of the sequential runs holds whenever no POST is in progress. */
  lemma SerialFollowsRule(env: Env, races: seq<Race>, actions: seq<Action>, n: nat)
    requires Run(env, races, actions) && Serial(env, races, actions) && n <= |actions| && races[n].held == map[]
    ensures races[n].server.config.Some? && Token(races[n].server) == Ruled(env, races, actions, n)
  {
    SerialInRule(env, races, actions, n);
  }
}
