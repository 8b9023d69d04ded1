/** Whole runs of the server: the admin token, and exports followed by an import. */
module ConfigRuns {
  import opened Wrappers
  import opened ConfigModel
  import opened ConfigSpec
  import opened ConfigTheorems

  // ---------------------------------------------------------------- the admin token

  predicate ValidToken(s: ServerState, token: string)
    requires s.config.Some?
  {
    token != "" && Token(s) == token
  }

  /** The request sets a token or clears it: a good login, a logout, or a reload from the file. */
  predicate SetsToken(s: ServerState, op: Op)
    requires s.config.Some?
  {
    GoodLogin(s, op) || op.Logout? || (op.Reload? && op.doc.Some?)
  }

  ghost predicate HasConfigs(states: seq<ServerState>) {
    forall i :: 0 <= i < |states| ==> states[i].config.Some?
  }

  lemma RunHasConfigs(env: Env, first: ConfigDoc, states: seq<ServerState>, ops: seq<Op>)
    requires Run(env, first, states, ops)
    ensures HasConfigs(states)
  {
    forall i | 0 <= i < |states|
      ensures states[i].config.Some?
    {
      if i > 0 {
        StepAt(env, first, states, ops, i - 1);
      }
    }
  }

  /** Request `i` issued the token and nothing set it again before state `n`. */
  predicate Standing(states: seq<ServerState>, ops: seq<Op>, i: nat, n: nat, token: string)
    requires n <= |ops| < |states|
    requires forall k :: 0 <= k < |states| ==> states[k].config.Some?
  {
    && i < n && GoodLogin(states[i], ops[i]) && ops[i].issued == token
    && forall j :: i < j < n ==> !SetsToken(states[j], ops[j])
  }

  /**
    A token is valid exactly if it is the non-empty one of a good login after which nobody logged
    in, logged out or reloaded the file; config posts, good or bad, and exports leave it valid.
    */
  lemma TokenOfLastLogin(env: Env, first: ConfigDoc, states: seq<ServerState>, ops: seq<Op>, n: nat, token: string)
    requires Run(env, first, states, ops) && n <= |ops|
    ensures HasConfigs(states)
    ensures HasConfigs(states) ==>
              (ValidToken(states[n], token) <==> token != "" && exists i: nat :: Standing(states, ops, i, n, token))
  {
    RunHasConfigs(env, first, states, ops);
    forall i | 0 <= i < |ops|
      ensures Token(states[i + 1]) == NextToken(states[i], ops[i])
    {
      StepAt(env, first, states, ops, i);
      StepToken(env, states[i], ops[i], states[i + 1]);
    }
    if token != "" {
      TokenStands(states, ops, n, token);
    }
  }

  function NextToken(s: ServerState, op: Op): string
    requires s.config.Some?
  {
    if GoodLogin(s, op) then op.issued else if SetsToken(s, op) then "" else Token(s)
  }

  lemma StepToken(env: Env, s: ServerState, op: Op, s': ServerState)
    requires Step(env, s, op, s')
    ensures Token(s') == NextToken(s, op)
  {
  }

  /** A login or logout changes the token at most, and a login to the one it issues, if it is a good one. */
  lemma OnlyTokenChanges(env: Env, s: ServerState, op: Op, s': ServerState)
    requires Step(env, s, op, s') && (op.Login? || op.Logout?)
    ensures s'.index == s.index
    ensures s'.config.value == s.config.value.(http := s.config.value.http.(token := s'.config.value.http.token))
    ensures var (http, token) := (s.config.value.http, s'.config.value.http.token);
            token == if op.Logout? then ""
                     else if op.username == http.username && op.password == http.password then op.issued
                     else http.token
  {
  }

  lemma {:induction false} TokenStands(states: seq<ServerState>, ops: seq<Op>, n: nat, token: string)
    requires n <= |ops| && |states| == |ops| + 1 && HasConfigs(states) && token != ""
    requires Token(states[0]) == ""
    requires forall i :: 0 <= i < |ops| ==> Token(states[i + 1]) == NextToken(states[i], ops[i])
    ensures Token(states[n]) == token <==> exists i: nat :: Standing(states, ops, i, n, token)
  {
    if n > 0 {
      var m := n - 1;
      TokenStands(states, ops, m, token);
      assert Token(states[m + 1]) == NextToken(states[m], ops[m]);
      if GoodLogin(states[m], ops[m]) && ops[m].issued == token {
        assert Standing(states, ops, m, n, token);
      } else if !SetsToken(states[m], ops[m]) {
        if Token(states[n]) == token {
          var i: nat :| Standing(states, ops, i, m, token);
          assert Standing(states, ops, i, n, token);
        }
        if i: nat :| Standing(states, ops, i, n, token) {
          assert i < m && Standing(states, ops, i, m, token);
        }
      }
    }
  }

  // ---------------------------------------------------------------- exporting and importing in a run

  ghost predicate Exporting(ops: seq<Op>, i: nat, n: nat)
    requires i + n <= |ops|
  {
    forall k :: i <= k < i + n ==> ops[k] == Export
  }

  lemma {:induction false} ExportsInRun(env: Env, states: seq<ServerState>, ops: seq<Op>, i: nat, n: nat)
    requires i + n <= |ops| < |states| && HasConfigs(states)
    requires forall k :: i <= k < i + n ==> ExportSafe(env, states[k]) && states[k + 1] == ExportedState(env, states[k])
    ensures states[i + n] == Exports(env, states[i], n)
    ensures ExportsSafe(env, states[i], n)
  {
    if n > 0 {
      ExportsInRun(env, states, ops, i, n - 1);
      var k := i + n - 1;
      assert ExportSafe(env, states[k]) && states[k + 1] == ExportedState(env, states[k]);
      OneMoreExport(env, states[i], n);
    }
  }

  lemma OneMoreExport(env: Env, s: ServerState, n: nat)
    requires s.config.Some? && n > 0 && ExportsSafe(env, s, n - 1) && ExportSafe(env, Exports(env, s, n - 1))
    ensures ExportsSafe(env, s, n) && Exports(env, s, n) == ExportedState(env, Exports(env, s, n - 1))
  {
  }

  lemma ExportStep(env: Env, s: ServerState, s': ServerState)
    requires Step(env, s, Export, s')
    ensures ExportSafe(env, s) && s' == ExportedState(env, s)
  {
  }

  /** The request loads the document that the state before it exports, from the web or from a file. */
  predicate ImportsOwn(s: ServerState, op: Op) {
    s.config.Some? &&
    (op == Post(Some(DocOf(s.config.value))) || op == Reload(Some(DocOf(s.config.value))))
  }

  lemma ImportStep(env: Env, s: ServerState, n: nat, x: ServerState, op: Op, s': ServerState)
    requires env.Lawful() && StateInv(env, s) && s.config.Some?
    requires n > 0 && ExportsSafe(env, s, n) && x == Exports(env, s, n)
    requires x.config.Some? && s'.config.Some? && ImportsOwn(x, op) && Step(env, x, op, s')
    requires KeysFit(s.Users()) && DistinctKeys(env, s.Users())
    ensures SameVerdicts(s, s')
  {
    var t := if op.Post? then WithToken(s', "") else s';
    ImportLoads(env, x, op, s', t);
    AuthSurvivesExportImport(env, s, n, t);
    TokenIrrelevant(s', t);
    VerdictsChain(s, t, s');
  }

  lemma VerdictsChain(s: ServerState, t: ServerState, s': ServerState)
    requires SameVerdicts(s, t) && SameVerdicts(t, s')
    ensures SameVerdicts(s, s')
  {
  }

  lemma ImportLoads(env: Env, x: ServerState, op: Op, s': ServerState, t: ServerState)
    requires x.config.Some? && ImportsOwn(x, op) && Step(env, x, op, s')
    requires t == if op.Post? then WithToken(s', "") else s'
    ensures LoadSafe(env, x, DocOf(x.config.value)) && Loaded(env, x, DocOf(x.config.value), t)
  {
  }

  /** Authentication does not depend on the token. */
  lemma TokenIrrelevant(s: ServerState, t: ServerState)
    requires s.config.Some? && (t == s || t == WithToken(s, ""))
    ensures SameVerdicts(t, s)
  {
    assert t.Users() == s.Users();
  }

  /**
    Anywhere in any run, some exports followed by an import of the unedited document leave every
    password verdict and every public-key verdict as they were before the exports.
    */
  lemma AuthSurvivesInRun(env: Env, first: ConfigDoc, states: seq<ServerState>, ops: seq<Op>, i: nat, n: nat)
    requires env.Lawful() && Run(env, first, states, ops)
    requires n > 0 && i + n < |ops| && Exporting(ops, i, n) && ImportsOwn(states[i + n], ops[i + n])
    requires KeysFit(states[i].Users()) && DistinctKeys(env, states[i].Users())
    ensures SameVerdicts(states[i], states[i + n + 1])
  {
    RunHasConfigs(env, first, states, ops);
    RunKeepsInv(env, first, states, ops, i);
    ExportsReached(env, first, states, ops, i, n);
    assert StepsAt(env, states, ops, i + n);
    ImportInRun(env, states, ops, i, n);
  }

  lemma ImportInRun(env: Env, states: seq<ServerState>, ops: seq<Op>, i: nat, n: nat)
    requires env.Lawful() && |states| == |ops| + 1 && HasConfigs(states)
    requires 0 < n && i + n < |ops| && StateInv(env, states[i])
    requires ExportsSafe(env, states[i], n) && states[i + n] == Exports(env, states[i], n)
    requires StepsAt(env, states, ops, i + n) && ImportsOwn(states[i + n], ops[i + n])
    requires KeysFit(states[i].Users()) && DistinctKeys(env, states[i].Users())
    ensures SameVerdicts(states[i], states[i + n + 1])
  {
    ImportStep(env, states[i], n, states[i + n], ops[i + n], states[i + n + 1]);
  }

  lemma ExportsReached(env: Env, first: ConfigDoc, states: seq<ServerState>, ops: seq<Op>, i: nat, n: nat)
    requires Run(env, first, states, ops) && HasConfigs(states) && i + n <= |ops| && Exporting(ops, i, n)
    ensures states[i + n] == Exports(env, states[i], n) && ExportsSafe(env, states[i], n)
  {
    forall k | i <= k < i + n
      ensures ExportSafe(env, states[k]) && states[k + 1] == ExportedState(env, states[k])
    {
      StepAt(env, first, states, ops, k);
      ExportStep(env, states[k], states[k + 1]);
    }
    ExportsInRun(env, states, ops, i, n);
  }
}
