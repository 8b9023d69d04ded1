/**
  The session table of internal/sftp.go, and its use by concurrent connection handlers, reloads and
  dropped logins. Every body that runs under the mutex is one step.
  */
module Sessions {
  /** An *ssh.ServerConn, by its identity. */
  datatype Conn = Conn(id: nat)

  type Table = map<string, map<Conn, string>>

  function Under(t: Table, login: string): map<Conn, string> {
    if login in t then t[login] else map[]
  }

  predicate Registered(t: Table, login: string, conn: Conn) {
    conn in Under(t, login)
  }

  function AllConns(t: Table): set<Conn> {
    set l, c | l in t && c in t[l] :: c
  }

  /** AddSession refuses a login that has as many entries as it may have. */
  predicate Full(t: Table, login: string, maxSessions: int) {
    maxSessions > 0 && |Under(t, login)| >= maxSessions
  }

  function Added(t: Table, login: string, conn: Conn, ip: string): Table {
    t[login := Under(t, login)[conn := ip]]
  }

  /** A login whose last entry is deleted goes from the table. */
  function Deleted(t: Table, login: string, conn: Conn): Table {
    if !Registered(t, login, conn) then t
    else
      var rest := t[login] - {conn};
      if rest == map[] then t - {login} else t[login := rest]
  }

  predicate NoEmptyLogin(t: Table) {
    forall l :: l in t ==> t[l] != map[]
  }

  /** The mutable table, and the connections of the process that are open. */
  class SessionTable {
    var sessions: Table
    ghost var open: set<Conn>
    ghost var closing: set<Conn>  // handed to a goroutine that will close them
    ghost var handlers: map<Conn, Handler>

    constructor ()
      ensures sessions == map[] && open == {} && closing == {} && handlers == map[]
    {
      sessions, open, closing, handlers := map[], {}, {}, map[];
    }

    /** The state of the protocol, given the limits of the current config. */
    ghost function View(limits: map<string, int>): State
      reads this
    {
      State(sessions, limits, open, handlers)
    }

    /** conn.Close() in the foreground. */
    method Close(conn: Conn)
      modifies this`open
      ensures open == old(open) - {conn}
    {
      open := open - {conn};
    }

    /** `go conn.Close()`: the connection is closed some time later. */
    method CloseLater(conn: Conn)
      modifies this`closing
      ensures closing == old(closing) + {conn}
    {
      closing := closing + {conn};
    }

    method AddSession(login: string, maxSessions: int, ip: string, conn: Conn, ghost limits: map<string, int>)
      returns (ok: bool)
      requires NoEmptyLogin(sessions) && login in limits && limits[login] == maxSessions
      modifies this`sessions, this`handlers
      ensures ok <==> maxSessions <= 0 || login !in old(sessions) || |old(sessions)[login]| < maxSessions
      ensures View(limits) == Next(old(View(limits)), Add(login, conn, ip))
      ensures sessions == if ok then Added(old(sessions), login, conn, ip) else old(sessions)
      ensures NoEmptyLogin(sessions)
    {
      if login !in sessions {
        sessions := sessions[login := map[]];
      }
      if maxSessions > 0 {
        if |sessions[login]| >= maxSessions {
          assert old(sessions) == sessions;
          handlers := handlers[conn := Returned];
          return false;
        }
      }
      handlers := handlers[conn := Running(login)];
      sessions := sessions[login := sessions[login][conn := ip]];
      assert conn in sessions[login];
      ok := true;
    }

    method DeleteSession(login: string, conn: Conn, ghost limits: map<string, int>)
      requires NoEmptyLogin(sessions)
      modifies this`sessions, this`closing, this`handlers
      ensures sessions == Deleted(old(sessions), login, conn)
      ensures View(limits) == Next(old(View(limits)), Delete(login, conn))
      ensures closing == old(closing) + if Registered(old(sessions), login, conn) then {conn} else {}
      ensures NoEmptyLogin(sessions)
    {
      DeletedNoEmpty(sessions, login, conn);
      Erase(login, conn);
      handlers := handlers[conn := Returned];
    }

    method Erase(login: string, conn: Conn)
      modifies this`sessions, this`closing
      ensures sessions == Deleted(old(sessions), login, conn)
      ensures closing == old(closing) + if Registered(old(sessions), login, conn) then {conn} else {}
    {
      if login in sessions {
        if conn in sessions[login] {
          CloseLater(conn);
          var rest := sessions[login] - {conn};
          sessions := sessions[login := rest];
          if |rest| == 0 {
            sessions := sessions - {login};
            assert sessions == old(sessions) - {login};
          }
        }
      }
    }

    method DropLogin(login: string, ghost limits: map<string, int>)
      requires NoEmptyLogin(sessions)
      modifies this`sessions, this`closing
      ensures sessions == old(sessions) - {login}
      ensures closing == old(closing) + Under(old(sessions), login).Keys
      ensures View(limits) == Next(old(View(limits)), Drop(login))
      ensures NoEmptyLogin(sessions)
    {
      if login in sessions {
        var todo := sessions[login].Keys;
        while todo != {}
          invariant sessions == old(sessions) && todo <= sessions[login].Keys
          invariant closing == old(closing) + (sessions[login].Keys - todo)
        {
          var conn :| conn in todo;
          todo := todo - {conn};
          CloseLater(conn);
        }
        sessions := sessions - {login};
      }
    }

    /** The last loop of LoadConfig: closes every connection of the table and leaves the table as it is. */
    method CloseAll(ghost limits: map<string, int>, ghost limits': map<string, int>)
      modifies this`open
      ensures open == old(open) - AllConns(sessions)
      ensures View(limits') == Next(old(View(limits)), Reload(limits'))
    {
      var logins := sessions.Keys;
      while logins != {}
        invariant logins <= sessions.Keys
        invariant open == old(open) - ConnsBeyond(sessions, logins)
      {
        var login :| login in logins;
        CloseLogin(login);
        BeyondOneMore(sessions, logins, login);
        logins := logins - {login};
      }
      assert ConnsBeyond(sessions, {}) == AllConns(sessions);
    }

    method CloseLogin(login: string)
      requires login in sessions
      modifies this`open
      ensures open == old(open) - sessions[login].Keys
    {
      var todo := sessions[login].Keys;
      while todo != {}
        invariant todo <= sessions[login].Keys
        invariant open == old(open) - (sessions[login].Keys - todo)
      {
        var conn :| conn in todo;
        todo := todo - {conn};
        Close(conn);
      }
    }
  }

  /** The connections of the logins that are not in the set. */
  ghost function ConnsBeyond(t: Table, logins: set<string>): set<Conn> {
    set l, c | l in t && l !in logins && c in t[l] :: c
  }

  lemma BeyondOneMore(t: Table, logins: set<string>, login: string)
    requires login in logins && login in t
    ensures ConnsBeyond(t, logins - {login}) == ConnsBeyond(t, logins) + t[login].Keys
  {
    forall c | c in ConnsBeyond(t, logins - {login})
      ensures c in ConnsBeyond(t, logins) + t[login].Keys
    {
      var l :| l in t && l !in logins - {login} && c in t[l];
      assert l == login || l !in logins;
    }
    forall c | c in ConnsBeyond(t, logins) + t[login].Keys
      ensures c in ConnsBeyond(t, logins - {login})
    {
      if c !in t[login] {
        var l :| l in t && l !in logins && c in t[l];
      } else {
        assert login !in logins - {login};
      }
    }
  }

  // ---------------------------------------------------------------- the protocol

  /** How far the handler of a connection has come: it holds a session of the login, or is done. */
  datatype Handler = Running(login: string) | Returned

  datatype State = State(
    table: Table,
    limits: map<string, int>,       // the current config's MaxSessions
    open: set<Conn>,
    handlers: map<Conn, Handler>)

  datatype Event =
    | Connect(conn: Conn)                             // a connection completes its handshake
    | Add(login: string, conn: Conn, ip: string)      // its handler calls AddSession
    | Delete(login: string, conn: Conn)               // its handler returns and calls DeleteSession
    | Drop(login: string)
    | Reload(limits: map<string, int>)                // the swap of the config and the closing loop
    | Disconnect(conn: Conn)                          // the peer or a goroutine closes the connection

  predicate Accepts(s: State, e: Event) {
    e.Add? && e.login in s.limits && !Full(s.table, e.login, s.limits[e.login])
  }

  /**
    When a step can be taken. Each connection has one handler, which adds it once and deletes it
    once. AddSession dereferences the login's user, so the login is in the current config.
    */
  predicate Enabled(s: State, e: Event) {
    match e
    case Connect(c) => c !in s.handlers && c !in s.open
    case Add(l, c, _) => c !in s.handlers && l in s.limits
    case Delete(l, c) => c in s.handlers && s.handlers[c] == Running(l)
    case _ => true
  }

  function Next(s: State, e: Event): State {
    match e
    case Connect(c) => s.(open := s.open + {c})
    case Add(l, c, ip) =>
      if Accepts(s, e)
      then s.(table := Added(s.table, l, c, ip), handlers := s.handlers[c := Running(l)])
      else s.(handlers := s.handlers[c := Returned])
    case Delete(l, c) => s.(table := Deleted(s.table, l, c), handlers := s.handlers[c := Returned])
    case Drop(l) => s.(table := s.table - {l})
    case Reload(limits) => s.(limits := limits, open := s.open - AllConns(s.table))
    case Disconnect(c) => s.(open := s.open - {c})
  }

  predicate Initial(s: State) {
    s.table == map[] && s.open == {} && s.handlers == map[]
  }

  /** Any interleaving of steps, from an empty table. */
  predicate Run(states: seq<State>, events: seq<Event>) {
    && |states| == |events| + 1 && Initial(states[0])
    && forall i :: 0 <= i < |events| ==> Enabled(states[i], events[i]) && states[i + 1] == Next(states[i], events[i])
  }

  /** The entries of the login whose connection is still open. */
  function OpenUnder(s: State, login: string): set<Conn> {
    Under(s.table, login).Keys * s.open
  }

  ghost predicate Inv(s: State) {
    && NoEmptyLogin(s.table)
    && (forall l, c :: Registered(s.table, l, c) ==> c in s.handlers && s.handlers[c] == Running(l))
    && (forall l :: l in s.limits && s.limits[l] > 0 ==> |OpenUnder(s, l)| <= s.limits[l])
    && (forall l :: l !in s.limits ==> OpenUnder(s, l) == {})
  }

  lemma SubsetSize<T>(a: set<T>, b: set<T>)
    requires a <= b
    ensures |a| <= |b|
  {
    assert b == a + (b - a);
  }

  /** A step that shrinks a login's open entries keeps the bound of the login. */
  lemma ShrinkKeeps(s: State, s': State)
    requires Inv(s) && s'.limits == s.limits && NoEmptyLogin(s'.table)
    requires forall l, c :: Registered(s'.table, l, c) ==> c in s'.handlers && s'.handlers[c] == Running(l)
    requires forall l :: OpenUnder(s', l) <= OpenUnder(s, l)
    ensures Inv(s')
  {
    forall l | l in s'.limits && s'.limits[l] > 0
      ensures |OpenUnder(s', l)| <= s'.limits[l]
    {
      SubsetSize(OpenUnder(s', l), OpenUnder(s, l));
    }
  }

  /** An accepted session is one more entry of its login, and there was room for it. */
  lemma AddedUnder(t: Table, login: string, conn: Conn, ip: string, l: string)
    ensures Under(Added(t, login, conn, ip), l).Keys == Under(t, l).Keys + if l == login then {conn} else {}
  {
  }

  lemma AddKeeps(s: State, e: Event)
    requires Inv(s) && e.Add? && Enabled(s, e)
    ensures Inv(Next(s, e))
  {
    var s' := Next(s, e);
    if Accepts(s, e) {
      forall l
        ensures l in s'.limits && s'.limits[l] > 0 ==> |OpenUnder(s', l)| <= s'.limits[l]
        ensures l !in s'.limits ==> OpenUnder(s', l) == {}
      {
        AddedOpen(s, e, l);
      }
      AddedEntries(s, e);
    } else {
      assert forall l :: OpenUnder(s', l) == OpenUnder(s, l);
    }
  }

  lemma AddedEntries(s: State, e: Event)
    requires Inv(s) && e.Add? && Enabled(s, e) && Accepts(s, e)
    ensures NoEmptyLogin(Next(s, e).table)
    ensures forall l, c :: Registered(Next(s, e).table, l, c) ==>
              c in Next(s, e).handlers && Next(s, e).handlers[c] == Running(l)
  {
    var t := Next(s, e).table;
    assert e.conn in t[e.login];
    forall l, c | Registered(t, l, c)
      ensures (c == e.conn && l == e.login) || (c != e.conn && Registered(s.table, l, c))
    {
      AddedUnder(s.table, e.login, e.conn, e.ip, l);
      assert !Registered(s.table, l, e.conn);
    }
  }

  lemma AddedOpen(s: State, e: Event, l: string)
    requires Inv(s) && Accepts(s, e)
    ensures var s' := Next(s, e);
            && (l in s.limits && s.limits[l] > 0 ==> |OpenUnder(s', l)| <= s.limits[l])
            && (l !in s.limits ==> OpenUnder(s', l) == {})
  {
    var s' := Next(s, e);
    AddedUnder(s.table, e.login, e.conn, e.ip, l);
    if l == e.login {
      SubsetSize(OpenUnder(s', l), Under(s.table, l).Keys + {e.conn});
    } else {
      assert OpenUnder(s', l) == OpenUnder(s, l);
    }
  }

  lemma DeletedUnder(t: Table, login: string, conn: Conn, l: string, c: Conn)
    ensures Registered(Deleted(t, login, conn), l, c) <==> Registered(t, l, c) && !(l == login && c == conn)
  {
    var t' := Deleted(t, login, conn);
    if Registered(t, login, conn) && l == login {
      if t[login] - {conn} == map[] {
        assert c != conn ==> c !in t[login] - {conn};
      }
    }
  }

  lemma DeleteKeeps(s: State, e: Event)
    requires Inv(s) && e.Delete? && Enabled(s, e)
    ensures Inv(Next(s, e))
  {
    var s' := Next(s, e);
    forall l, c | Registered(s'.table, l, c)
      ensures Registered(s.table, l, c) && c in s'.handlers && s'.handlers[c] == Running(l)
    {
      DeletedUnder(s.table, e.login, e.conn, l, c);
    }
    forall l
      ensures OpenUnder(s', l) <= OpenUnder(s, l)
    {
      assert forall c :: c in OpenUnder(s', l) ==> Registered(s'.table, l, c);
    }
    DeletedNoEmpty(s.table, e.login, e.conn);
    ShrinkKeeps(s, s');
  }

  lemma DeletedNoEmpty(t: Table, login: string, conn: Conn)
    requires NoEmptyLogin(t)
    ensures NoEmptyLogin(Deleted(t, login, conn))
  {
  }

  lemma NextKeepsInv(s: State, e: Event)
    requires Inv(s) && Enabled(s, e)
    ensures Inv(Next(s, e))
  {
    var s' := Next(s, e);
    match e {
      case Connect(c) =>
        forall l
          ensures OpenUnder(s', l) == OpenUnder(s, l)
        {
          assert !Registered(s.table, l, c);
        }
      case Add(_, _, _) =>
        AddKeeps(s, e);
      case Delete(_, _) =>
        DeleteKeeps(s, e);
      case Drop(login) =>
        assert forall l, c :: Registered(s'.table, l, c) ==> Registered(s.table, l, c);
        ShrinkKeeps(s, s');
      case Reload(_) =>
        forall l
          ensures OpenUnder(s', l) == {}
        {
          assert forall c :: c in Under(s.table, l) ==> c in AllConns(s.table);
        }
      case Disconnect(_) =>
        ShrinkKeeps(s, s');
    }
  }

  lemma {:induction false} RunKeepsInv(states: seq<State>, events: seq<Event>, i: nat)
    requires Run(states, events) && i <= |events|
    ensures Inv(states[i])
  {
    if i > 0 {
      RunKeepsInv(states, events, i - 1);
      NextKeepsInv(states[i - 1], events[i - 1]);
      assert states[i] == Next(states[i - 1], events[i - 1]);
    }
  }

  /**
    In every state of every interleaving the open registered connections of a login are at most its
    current positive MaxSessions, also after a reload that lowers it; a login that the current
    config does not have has none.
    */
  lemma SessionLimitHolds(states: seq<State>, events: seq<Event>, i: nat, login: string)
    requires Run(states, events) && i <= |events|
    ensures login in states[i].limits && states[i].limits[login] > 0 ==>
              |OpenUnder(states[i], login)| <= states[i].limits[login]
    ensures login !in states[i].limits ==> OpenUnder(states[i], login) == {}
  {
    RunKeepsInv(states, events, i);
  }

  /** The event `i` added the entry and no later one before state `n` deleted it or dropped the login. */
  predicate AddedAt(states: seq<State>, events: seq<Event>, login: string, conn: Conn, i: nat, n: nat)
    requires n <= |events| < |states|
  {
    && i < n && AddsEntry(states[i], events[i], login, conn)
    && forall j :: i < j < n ==> events[j] != Delete(login, conn) && events[j] != Drop(login)
  }

  /** The table holds exactly the admitted entries that were neither deleted nor dropped since. */
  lemma {:induction false} TableIsHistory(states: seq<State>, events: seq<Event>, n: nat, login: string, conn: Conn)
    requires Run(states, events) && n <= |events|
    ensures Registered(states[n].table, login, conn) <==> exists i: nat :: AddedAt(states, events, login, conn, i, n)
  {
    if n > 0 {
      var m := n - 1;
      TableIsHistory(states, events, m, login, conn);
      assert states[m + 1] == Next(states[m], events[m]);
      StepRegisters(states[m], events[m], login, conn);
      HistoryStep(states, events, m, n, login, conn);
    }
  }

  predicate AddsEntry(s: State, e: Event, login: string, conn: Conn) {
    e.Add? && e.login == login && e.conn == conn && Accepts(s, e)
  }

  /** One more event: it adds the entry, or an earlier one did and this does not remove it. */
  lemma HistoryStep(states: seq<State>, events: seq<Event>, m: nat, n: nat, login: string, conn: Conn)
    requires m < |events| < |states| && n == m + 1
    ensures (exists i: nat :: AddedAt(states, events, login, conn, i, n))
       <==> || AddsEntry(states[m], events[m], login, conn)
            || ((exists i: nat :: AddedAt(states, events, login, conn, i, m))
                && events[m] != Delete(login, conn) && events[m] != Drop(login))
  {
    if AddsEntry(states[m], events[m], login, conn) {
      assert AddedAt(states, events, login, conn, m, n);
    }
    if i: nat :| AddedAt(states, events, login, conn, i, n) {
      assert i == m || AddedAt(states, events, login, conn, i, m);
    }
    if i: nat :| AddedAt(states, events, login, conn, i, m) {
      if events[m] != Delete(login, conn) && events[m] != Drop(login) {
        assert AddedAt(states, events, login, conn, i, n);
      }
    }
  }

  lemma StepRegisters(s: State, e: Event, login: string, conn: Conn)
    ensures Registered(Next(s, e).table, login, conn) <==>
            || AddsEntry(s, e, login, conn)
            || (Registered(s.table, login, conn) && e != Delete(login, conn) && e != Drop(login))
  {
    if e.Delete? {
      DeletedUnder(s.table, e.login, e.conn, login, conn);
    }
  }

  /** What has been admitted and closed stays closed: its handler does not connect again. */
  lemma {:induction false} StaysClosed(states: seq<State>, events: seq<Event>, r: nat, n: nat, conn: Conn)
    requires Run(states, events) && r <= n <= |events|
    requires conn in states[r].handlers && conn !in states[r].open
    ensures conn in states[n].handlers && conn !in states[n].open
  {
    if r < n {
      StaysClosed(states, events, r, n - 1, conn);
      assert Enabled(states[n - 1], events[n - 1]) && states[n - 1 + 1] == Next(states[n - 1], events[n - 1]);
    }
  }

  /** A reload closes what is registered, for good. */
  lemma ReloadCloses(states: seq<State>, events: seq<Event>, r: nat, n: nat, login: string, conn: Conn)
    requires Run(states, events) && r < n <= |events| && events[r].Reload? && Registered(states[r].table, login, conn)
    ensures conn !in states[n].open
  {
    RunKeepsInv(states, events, r);
    assert states[r + 1] == Next(states[r], events[r]);
    assert conn in AllConns(states[r].table);
    StaysClosed(states, events, r + 1, n, conn);
  }

  /** So a reload cuts every session admitted before it: one that is open in the table was added since. */
  lemma ReloadCutsEarlier(states: seq<State>, events: seq<Event>, r: nat, n: nat, login: string, conn: Conn)
    requires Run(states, events) && r < n <= |events| && events[r].Reload?
    requires Registered(states[n].table, login, conn) && conn in states[n].open
    ensures exists i: nat :: r < i && AddedAt(states, events, login, conn, i, n)
  {
    TableIsHistory(states, events, n, login, conn);
    var i: nat :| AddedAt(states, events, login, conn, i, n);
    if i < r {
      assert AddedAt(states, events, login, conn, i, r);
      TableIsHistory(states, events, r, login, conn);
      ReloadCloses(states, events, r, n, login, conn);
    }
  }

  /**
    An AddSession in any run: the connection comes into the table exactly if its login has no limit
    or fewer entries than that, under its address; nothing else changes, and on a refusal nothing at all.
    */
  lemma AdmittedExactly(states: seq<State>, events: seq<Event>, i: nat)
    requires Run(states, events) && i < |events| && events[i].Add?
    ensures var (t, t', l, c) := (states[i].table, states[i + 1].table, events[i].login, events[i].conn);
            && l in states[i].limits
            && (var entries: map<Conn, string> := if l in t then t[l] else map[];
                if states[i].limits[l] <= 0 || |entries| < states[i].limits[l]
                then c !in entries && t' == t[l := entries[c := events[i].ip]]
                else !Registered(t', l, c) && t' == t)
    ensures states[i + 1].open == states[i].open && states[i + 1].limits == states[i].limits
  {
    RunKeepsInv(states, events, i);
    assert Enabled(states[i], events[i]) && states[i + 1] == Next(states[i], events[i]);
    assert !Registered(states[i].table, events[i].login, events[i].conn);
  }

  /** A connection is under one login only, no login is left with an empty map. */
  lemma OneLoginEach(states: seq<State>, events: seq<Event>, n: nat, l: string, m: string, c: Conn)
    requires Run(states, events) && n <= |events|
    ensures NoEmptyLogin(states[n].table)
    ensures Registered(states[n].table, l, c) && Registered(states[n].table, m, c) ==> l == m
  {
    RunKeepsInv(states, events, n);
  }

  /**
    A handler that returns removes its own entry and nobody else's, whatever happened in between: a
    deletion that comes late, after the login was dropped, leaves the newer sessions alone.
    */
  lemma ReturnRemovesOnlyItself(s: State, login: string, conn: Conn, l: string, c: Conn)
    ensures var s' := Next(s, Delete(login, conn));
            && !Registered(s'.table, login, conn)
            && ((l, c) != (login, conn) ==> (Registered(s'.table, l, c) <==> Registered(s.table, l, c)))
            && (!Registered(s.table, login, conn) ==> s'.table == s.table)
  {
    DeletedUnder(s.table, login, conn, l, c);
    DeletedUnder(s.table, login, conn, login, conn);
  }

  /** Once every handler has returned, the table is empty. */
  lemma EmptyWhenAllReturned(states: seq<State>, events: seq<Event>, n: nat)
    requires Run(states, events) && n <= |events|
    requires forall c :: c in states[n].handlers ==> states[n].handlers[c] == Returned
    ensures states[n].table == map[]
  {
    RunKeepsInv(states, events, n);
    var t := states[n].table;
    if l :| l in t {
      var c :| c in t[l];
      assert Registered(t, l, c);
    }
    assert t.Keys == {};
  }
}
