/** The pool object against the protocol: each method of cmd/mailboxd/connpool.go, run alone, is a
    run of the protocol's steps on what is parked. */
module PoolRefinement {
  import opened Wrappers
  import opened Sequences
  import opened Custody
  import opened ConnPool
  import opened PoolProtocol

  /** The object parks what the state says is idle. */
  ghost predicate Shows(s: State, pool: Pool)
    reads pool
  {
    forall p :: At(s.held, Idle(p)) == pool.Parked(p)
  }

  /** And it has closed what the state says is closed, in that order. */
  ghost predicate ShowsClosed(s: State, pool: Pool)
    reads pool
  {
    Shows(s, pool) && Ids(At(s.held, Closed)) == pool.closed
  }

  lemma PassedAt(s: State, from: Place, rest: seq<Conn>, to: Place, c: Conn, h: Place)
    requires from != to
    ensures At(Pass(s, from, rest, to, c).held, h) == if h == to then At(s.held, to) + [c] else if h == from then rest else At(s.held, h)
  {
  }

  /** A call that has entered and holds nothing. */
  ghost predicate Entered(s: State, t: nat, p: Principal, now: int) {
    t in s.calls && s.calls[t] == Call(p, now, false) && At(s.held, Checking(t)) == []
  }

  method Pop(pool: Pool, p: Principal, ghost s: State, ghost t: nat, ghost now: int) returns (c: Option<Conn>, ghost s': State)
    requires pool.Valid() && ShowsClosed(s, pool) && Entered(s, t, p, now)
    modifies pool
    ensures pool.Valid() && s' == Next(pool.cfg, s, PoolProtocol.Pop(t)) && ShowsClosed(s', pool)
    ensures c.Some? ==> At(s'.held, Checking(t)) == [c.value]
    ensures c.None? ==> s'.calls[t].dialling
  {
    ghost var conns := At(s.held, Idle(p));
    c := pool.Pop(p);
    s' := Next(pool.cfg, s, PoolProtocol.Pop(t));
    if c.Some? {
      assert conns == pool.Parked(p) + [c.value];
      forall h: Place ensures At(s'.held, h) == if h == Checking(t) then [c.value] else if h == Idle(p) then pool.Parked(p) else At(s.held, h) {
        PassedAt(s, Idle(p), conns[..|conns| - 1], Checking(t), c.value, h);
      }
    }
  }

  /** Giving a leased connection back is its release followed by settling it. */
  method Checkin(pool: Pool, c: Conn, now: int, ghost s: State, ghost l: nat) returns (ghost s': State)
    requires pool.Valid() && ShowsClosed(s, pool)
    requires At(s.held, Leased(l)) == [c] && At(s.held, Returning(l)) == []
    modifies pool
    ensures pool.Valid() && s' == Next(pool.cfg, Next(pool.cfg, s, Release(l, now)), Settle(l)) && ShowsClosed(s', pool)
  {
    ghost var released := Next(pool.cfg, s, Release(l, now));
    pool.Checkin(c.owner, c, now);
    s' := Next(pool.cfg, released, Settle(l));
    CheckedIn(pool.cfg, s, c, now, l);
    IdsAppend(At(s.held, Closed), c);
    IdsAppend(At(s.held, Closed), c.(idleAt := now));
  }

  lemma IdsAppend(conns: seq<Conn>, c: Conn)
    ensures Ids(conns + [c]) == Ids(conns) + [c.id]
  {
  }

  lemma CheckedIn(cfg: Config, s: State, c: Conn, now: int, l: nat)
    requires At(s.held, Leased(l)) == [c] && At(s.held, Returning(l)) == []
    ensures var s' := Next(cfg, Next(cfg, s, Release(l, now)), Settle(l)); var back := c.(idleAt := now);
            && (forall p :: At(s'.held, Idle(p)) ==
                  if p == c.owner && !Expired(cfg, c, now) && HasRoom(cfg, At(s.held, Idle(p)))
                  then At(s.held, Idle(p)) + [back] else At(s.held, Idle(p)))
            && At(s'.held, Closed) ==
               if Expired(cfg, c, now) then At(s.held, Closed) + [c]
               else if HasRoom(cfg, At(s.held, Idle(c.owner))) then At(s.held, Closed)
               else At(s.held, Closed) + [back]
  {
    var back := c.(idleAt := now);
    var released := Next(cfg, s, Release(l, now));
    var to := if Expired(cfg, c, now) then Closed else Returning(l);
    var moved := if Expired(cfg, c, now) then c else back;
    assert released == Pass(s, Leased(l), [], to, moved);
    forall h: Place ensures At(released.held, h) == if h == to then At(s.held, to) + [moved] else if h == Leased(l) then [] else At(s.held, h) {
      PassedAt(s, Leased(l), [], to, moved, h);
    }
    if !Expired(cfg, c, now) {
      var last := if HasRoom(cfg, At(released.held, Idle(c.owner))) then Idle(c.owner) else Closed;
      forall h: Place ensures At(Pass(released, Returning(l), [], last, back).held, h) ==
                              if h == last then At(released.held, last) + [back] else if h == Returning(l) then [] else At(released.held, h) {
        PassedAt(released, Returning(l), [], last, back, h);
      }
    }
  }

  lemma ReapSweeps(cfg: Config, s: State, batch: nat, now: int)
    requires Inv(cfg, s) && batch !in s.spent
    ensures var s' := Next(cfg, s, PoolProtocol.Reap(batch, now));
            forall p :: && At(s'.held, Idle(p)) == Fresh(cfg, At(s.held, Idle(p)), now)
                        && At(s'.held, Dying(batch, p)) == Dead(cfg, At(s.held, Idle(p)), now)
  {
    var stays, goes := (conns: seq<Conn>) => Fresh(cfg, conns, now), (conns: seq<Conn>) => Dead(cfg, conns, now);
    assert Next(cfg, s, PoolProtocol.Reap(batch, now)) == SweepIdle(s, batch, stays, goes);
    forall p ensures At(SweepIdle(s, batch, stays, goes).held, Idle(p)) == stays(At(s.held, Idle(p)))
             ensures At(SweepIdle(s, batch, stays, goes).held, Dying(batch, p)) == goes(At(s.held, Idle(p))) {
      SweptAt(s, batch, stays, goes, Idle(p));
      SweptAt(s, batch, stays, goes, Dying(batch, p));
    }
  }

  lemma CloseAllSweeps(cfg: Config, s: State, batch: nat)
    requires Inv(cfg, s) && batch !in s.spent
    ensures var s' := Next(cfg, s, PoolProtocol.CloseAll(batch));
            forall p :: At(s'.held, Idle(p)) == [] && At(s'.held, Dying(batch, p)) == At(s.held, Idle(p))
  {
    var stays, goes := (conns: seq<Conn>) => [], (conns: seq<Conn>) => conns;
    assert Next(cfg, s, PoolProtocol.CloseAll(batch)) == SweepIdle(s, batch, stays, goes);
    forall p ensures At(SweepIdle(s, batch, stays, goes).held, Idle(p)) == []
             ensures At(SweepIdle(s, batch, stays, goes).held, Dying(batch, p)) == At(s.held, Idle(p)) {
      SweptAt(s, batch, stays, goes, Idle(p));
      SweptAt(s, batch, stays, goes, Dying(batch, p));
    }
  }

  /** One sweep is one step; the ids the object closes are those the step takes out. */
  method Reap(pool: Pool, now: int, ghost s: State, ghost batch: nat) returns (ghost s': State)
    requires pool.Valid() && Shows(s, pool) && Inv(pool.cfg, s) && batch !in s.spent
    modifies pool
    ensures pool.Valid() && s' == Next(pool.cfg, s, PoolProtocol.Reap(batch, now)) && Shows(s', pool)
    ensures exists torn :: pool.closed == old(pool.closed) + torn && TakenOut(s', batch, torn)
  {
    ghost var before, log := pool.idle, pool.closed;
    ShownDistinct(pool.cfg, s, before);
    pool.Reap(now);
    ghost var torn :| pool.closed == log + torn && (ParkedOnceEach(before) ==> NoDuplicates(torn))
                      && forall id :: id in torn <==> exists p :: DeadFor(pool.cfg, before, now, p, id);
    s' := Next(pool.cfg, s, PoolProtocol.Reap(batch, now));
    ReapSweeps(pool.cfg, s, batch, now);
    ReapTakesOut(pool.cfg, s, s', batch, now, before, torn);
  }

  lemma ReapTakesOut(cfg: Config, s: State, s': State, batch: nat, now: int, before: map<Principal, seq<Conn>>, torn: seq<nat>)
    requires forall p :: At(s'.held, Dying(batch, p)) == Dead(cfg, At(s.held, Idle(p)), now)
    requires forall p :: At(before, p) == At(s.held, Idle(p))
    requires NoDuplicates(torn) && forall id :: id in torn <==> exists p :: DeadFor(cfg, before, now, p, id)
    ensures TakenOut(s', batch, torn)
  {
    assert forall p, id :: DeadFor(cfg, before, now, p, id) <==> id in Ids(At(s'.held, Dying(batch, p)));
  }

  /** Each connection the batch took out, once, and no other. */
  ghost predicate TakenOut(s: State, batch: nat, torn: seq<nat>) {
    && NoDuplicates(torn)
    && forall id :: id in torn <==> exists p :: id in Ids(At(s.held, Dying(batch, p)))
  }

  lemma ShownDistinct(cfg: Config, s: State, idle: map<Principal, seq<Conn>>)
    requires Inv(cfg, s) && forall p :: At(s.held, Idle(p)) == At(idle, p)
    ensures ParkedOnceEach(idle)
  {
    forall p ensures Ids(At(idle, p)) == At(View(s.held), Idle(p)) {
      ViewAt(s.held, Idle(p));
    }
    forall p, q, id | ParkedFor(idle, p, id) && ParkedFor(idle, q, id) ensures p == q {
      assert id in At(View(s.held), Idle(p)) && id in At(View(s.held), Idle(q));
      assert Idle(p) == Idle(q);
    }
  }

  method CloseAll(pool: Pool, ghost s: State, ghost batch: nat) returns (ghost s': State)
    requires pool.Valid() && Shows(s, pool) && Inv(pool.cfg, s) && batch !in s.spent
    modifies pool
    ensures pool.Valid() && s' == Next(pool.cfg, s, PoolProtocol.CloseAll(batch)) && Shows(s', pool)
    ensures exists torn :: pool.closed == old(pool.closed) + torn && TakenOut(s', batch, torn)
  {
    ghost var before, log := pool.idle, pool.closed;
    ShownDistinct(pool.cfg, s, before);
    pool.CloseAll();
    ghost var torn :| pool.closed == log + torn && (ParkedOnceEach(before) ==> NoDuplicates(torn))
                      && forall id :: id in torn <==> exists p :: ParkedFor(before, p, id);
    s' := Next(pool.cfg, s, PoolProtocol.CloseAll(batch));
    CloseAllSweeps(pool.cfg, s, batch);
    assert forall p :: At(before, p) == At(s.held, Idle(p));
    assert forall p, id :: ParkedFor(before, p, id) <==> id in Ids(At(s'.held, Dying(batch, p)));
    assert TakenOut(s', batch, torn);
  }

  // ---- Get ----

  /** n parked connections taken and turned down. */
  function Rejects(t: nat, alive: Option<set<nat>>, n: nat): seq<Step> {
    if n == 0 then [] else Rejects(t, alive, n - 1) + [PoolProtocol.Pop(t)] + [Reject(t, alive)]
  }

  lemma RunOne(cfg: Config, s: State, steps: seq<Step>, step: Step)
    ensures Run(cfg, s, steps + [step]) == Next(cfg, Run(cfg, s, steps), step)
  {
    assert (steps + [step])[..|steps|] == steps;
  }

  ghost predicate AfterRejects(s: State, s': State, t: nat, p: Principal, now: int, n: nat)
    requires n <= |At(s.held, Idle(p))|
  {
    var conns := At(s.held, Idle(p));
    && Entered(s', t, p, now) && s'.spent == s.spent && s'.dialled == s.dialled
    && (forall q :: At(s'.held, Idle(q)) == if q == p then conns[..|conns| - n] else At(s.held, Idle(q)))
    && (forall l :: At(s'.held, Leased(l)) == At(s.held, Leased(l)))
    && Ids(At(s'.held, Closed)) == Ids(At(s.held, Closed)) + Reverse(Ids(conns[|conns| - n..]))
  }

  lemma PopThenReject(cfg: Config, s: State, t: nat, p: Principal, now: int, alive: Option<set<nat>>)
    requires Entered(s, t, p, now) && At(s.held, Idle(p)) != []
    requires var conns := At(s.held, Idle(p)); !Usable(cfg, conns[|conns| - 1], now, alive)
    ensures var conns, s' := At(s.held, Idle(p)), Next(cfg, Next(cfg, s, PoolProtocol.Pop(t)), Reject(t, alive));
            && Entered(s', t, p, now) && s'.spent == s.spent && s'.dialled == s.dialled
            && forall h: Place :: At(s'.held, h) ==
                 if h == Idle(p) then conns[..|conns| - 1]
                 else if h == Closed then At(s.held, Closed) + [conns[|conns| - 1]]
                 else At(s.held, h)
  {
    var conns := At(s.held, Idle(p));
    var c := conns[|conns| - 1];
    var popped := Next(cfg, s, PoolProtocol.Pop(t));
    assert popped == Pass(s, Idle(p), conns[..|conns| - 1], Checking(t), c);
    forall h: Place ensures At(popped.held, h) == if h == Checking(t) then [c] else if h == Idle(p) then conns[..|conns| - 1] else At(s.held, h) {
      PassedAt(s, Idle(p), conns[..|conns| - 1], Checking(t), c, h);
    }
    forall h: Place ensures At(Pass(popped, Checking(t), [], Closed, c).held, h) ==
                            if h == Closed then At(popped.held, Closed) + [c] else if h == Checking(t) then [] else At(popped.held, h) {
      PassedAt(popped, Checking(t), [], Closed, c, h);
    }
  }

  lemma OneMoreReject(cfg: Config, s: State, mid: State, t: nat, p: Principal, now: int, alive: Option<set<nat>>, n: nat)
    requires 0 < n <= |At(s.held, Idle(p))| && AfterRejects(s, mid, t, p, now, n - 1)
    requires var conns := At(s.held, Idle(p)); !Usable(cfg, conns[|conns| - n], now, alive)
    ensures AfterRejects(s, Next(cfg, Next(cfg, mid, PoolProtocol.Pop(t)), Reject(t, alive)), t, p, now, n)
  {
    var conns := At(s.held, Idle(p));
    var m := |conns| - n;
    assert At(mid.held, Idle(p)) == conns[..m + 1] && conns[..m + 1][m] == conns[m] && conns[..m + 1][..m] == conns[..m];
    PopThenReject(cfg, mid, t, p, now, alive);
    OneMoreClosed(At(s.held, Closed), At(mid.held, Closed), conns, m);
  }

  lemma OneMoreClosed(before: seq<Conn>, closed: seq<Conn>, conns: seq<Conn>, m: nat)
    requires m < |conns| && Ids(closed) == Ids(before) + Reverse(Ids(conns[m + 1..]))
    ensures Ids(closed + [conns[m]]) == Ids(before) + Reverse(Ids(conns[m..]))
  {
    assert conns[m..] == [conns[m]] + conns[m + 1..];
    IdsAppend(closed, conns[m]);
    ReverseFirst(conns[m], conns[m + 1..]);
  }

  lemma {:induction false} RejectsRun(cfg: Config, s: State, t: nat, p: Principal, now: int, alive: Option<set<nat>>, n: nat)
    requires Entered(s, t, p, now) && n <= |At(s.held, Idle(p))|
    requires var conns := At(s.held, Idle(p)); forall c :: c in conns[|conns| - n..] ==> !Usable(cfg, c, now, alive)
    ensures AfterRejects(s, Run(cfg, s, Rejects(t, alive, n)), t, p, now, n)
  {
    var conns := At(s.held, Idle(p));
    if n == 0 {
      assert Ids(At(s.held, Closed)) + Reverse(Ids(conns[|conns|..])) == Ids(At(s.held, Closed));
    } else {
      assert conns[|conns| - n..] == [conns[|conns| - n]] + conns[|conns| - n + 1..];
      RejectsRun(cfg, s, t, p, now, alive, n - 1);
      var init := Rejects(t, alive, n - 1);
      RunOne(cfg, s, init, PoolProtocol.Pop(t));
      RunOne(cfg, s, init + [PoolProtocol.Pop(t)], Reject(t, alive));
      OneMoreReject(cfg, s, Run(cfg, s, init), t, p, now, alive, n);
    }
  }

  /** The steps of one get: the connections turned down, then a grant, a dial or a failed dial. */
  function GetSteps(t: nat, l: nat, alive: Option<set<nat>>, n: nat, reused: bool, dialled: Option<Conn>): seq<Step> {
    Rejects(t, alive, n) + [PoolProtocol.Pop(t)] +
    [if reused then Grant(t, l, alive)
     else if dialled.Some? then Dial(t, l, dialled.value.id, dialled.value.expiresAt)
     else DialFailed(t)]
  }

  /** What one get leaves, given how many it turned down. */
  ghost predicate AfterGet(s: State, s': State, p: Principal, l: nat, n: nat, dialled: Option<Conn>)
    requires n <= |At(s.held, Idle(p))|
  {
    var conns := At(s.held, Idle(p));
    var reused := n < |conns|;
    && (forall q :: At(s'.held, Idle(q)) == if q == p then conns[..|conns| - n - (if reused then 1 else 0)] else At(s.held, Idle(q)))
    && Ids(At(s'.held, Closed)) == Ids(At(s.held, Closed)) + Reverse(Ids(conns[|conns| - n..]))
    && At(s'.held, Leased(l)) == if reused then [conns[|conns| - n - 1]] else if dialled.Some? then [dialled.value] else []
  }

  lemma ReuseFinishes(cfg: Config, s: State, mid: State, t: nat, p: Principal, now: int, alive: Option<set<nat>>, l: nat, n: nat, dialled: Option<Conn>)
    requires n < |At(s.held, Idle(p))| && AfterRejects(s, mid, t, p, now, n) && l !in s.spent && At(s.held, Leased(l)) == []
    requires var conns := At(s.held, Idle(p)); Usable(cfg, conns[|conns| - n - 1], now, alive)
    ensures AfterGet(s, Next(cfg, Next(cfg, mid, PoolProtocol.Pop(t)), Grant(t, l, alive)), p, l, n, dialled)
  {
    var conns := At(s.held, Idle(p));
    var m := |conns| - n;
    assert At(mid.held, Idle(p)) == conns[..m] && conns[..m][m - 1] == conns[m - 1] && conns[..m][..m - 1] == conns[..m - 1];
    Granted(cfg, mid, t, p, now, alive, l);
  }

  lemma Dialled(cfg: Config, s: State, t: nat, p: Principal, now: int, l: nat, dialled: Option<Conn>)
    requires Entered(s, t, p, now) && At(s.held, Idle(p)) == [] && l !in s.spent && At(s.held, Leased(l)) == []
    requires dialled.Some? ==> dialled.value.owner == p && dialled.value.idleAt == UNKNOWN && dialled.value.id !in s.dialled
    ensures var last := if dialled.Some? then Dial(t, l, dialled.value.id, dialled.value.expiresAt) else DialFailed(t);
            var s' := Next(cfg, Next(cfg, s, PoolProtocol.Pop(t)), last);
            forall h: Place :: At(s'.held, h) == if h == Leased(l) && dialled.Some? then [dialled.value] else At(s.held, h)
  {
    var popped := Next(cfg, s, PoolProtocol.Pop(t));
    assert popped.held == s.held && popped.calls[t] == Call(p, now, true);
    if dialled.Some? {
      var c := dialled.value;
      assert Conn(c.id, p, c.expiresAt, UNKNOWN) == c;
      assert Next(cfg, popped, Dial(t, l, c.id, c.expiresAt)).held == s.held[Leased(l) := [c]];
    }
  }

  lemma GetFinishes(cfg: Config, s: State, t: nat, p: Principal, now: int, alive: Option<set<nat>>, l: nat, n: nat, dialled: Option<Conn>)
    requires Entered(s, t, p, now) && n <= |At(s.held, Idle(p))| && l !in s.spent && At(s.held, Leased(l)) == []
    requires var conns := At(s.held, Idle(p)); forall c :: c in conns[|conns| - n..] ==> !Usable(cfg, c, now, alive)
    requires var conns := At(s.held, Idle(p)); n < |conns| ==> Usable(cfg, conns[|conns| - n - 1], now, alive)
    requires dialled.Some? ==> dialled.value.owner == p && dialled.value.idleAt == UNKNOWN && dialled.value.id !in s.dialled
    ensures AfterGet(s, Run(cfg, s, GetSteps(t, l, alive, n, n < |At(s.held, Idle(p))|, dialled)), p, l, n, dialled)
  {
    var reused, init := n < |At(s.held, Idle(p))|, Rejects(t, alive, n);
    var mid := Run(cfg, s, init);
    RejectsRun(cfg, s, t, p, now, alive, n);
    RunOne(cfg, s, init, PoolProtocol.Pop(t));
    if reused {
      RunOne(cfg, s, init + [PoolProtocol.Pop(t)], Grant(t, l, alive));
      ReuseFinishes(cfg, s, mid, t, p, now, alive, l, n, dialled);
    } else {
      var last := if dialled.Some? then Dial(t, l, dialled.value.id, dialled.value.expiresAt) else DialFailed(t);
      RunOne(cfg, s, init + [PoolProtocol.Pop(t)], last);
      assert At(s.held, Idle(p))[..0] == [];
      Dialled(cfg, mid, t, p, now, l, dialled);
    }
  }

  lemma Granted(cfg: Config, s: State, t: nat, p: Principal, now: int, alive: Option<set<nat>>, l: nat)
    requires Entered(s, t, p, now) && At(s.held, Idle(p)) != [] && l !in s.spent && At(s.held, Leased(l)) == []
    requires var conns := At(s.held, Idle(p)); Usable(cfg, conns[|conns| - 1], now, alive)
    ensures var conns, s' := At(s.held, Idle(p)), Next(cfg, Next(cfg, s, PoolProtocol.Pop(t)), Grant(t, l, alive));
            forall h: Place :: At(s'.held, h) ==
              if h == Idle(p) then conns[..|conns| - 1] else if h == Leased(l) then [conns[|conns| - 1]] else At(s.held, h)
  {
    var conns := At(s.held, Idle(p));
    var c := conns[|conns| - 1];
    var popped := Next(cfg, s, PoolProtocol.Pop(t));
    assert popped == Pass(s, Idle(p), conns[..|conns| - 1], Checking(t), c);
    forall h: Place ensures At(popped.held, h) == if h == Checking(t) then [c] else if h == Idle(p) then conns[..|conns| - 1] else At(s.held, h) {
      PassedAt(s, Idle(p), conns[..|conns| - 1], Checking(t), c, h);
    }
    forall h: Place ensures At(Pass(popped, Checking(t), [], Leased(l), c).held, h) ==
                            if h == Leased(l) then At(popped.held, h) + [c] else if h == Checking(t) then [] else At(popped.held, h) {
      PassedAt(popped, Checking(t), [], Leased(l), c, h);
    }
  }

  /** The contract of Pool.Get on values: kept of before stay parked. */
  ghost predicate Got(cfg: Config, before: seq<Conn>, kept: nat, now: int, alive: Option<set<nat>>, dialled: Option<Conn>,
                      r: Option<Conn>, torn: seq<nat>)
    requires kept <= |before|
  {
    var reused := kept < |before| && Usable(cfg, before[kept], now, alive);
    var rejected := before[kept + (if reused then 1 else 0)..];
    && (if reused then r == Some(before[kept]) else kept == 0 && r == dialled)
    && torn == Reverse(Ids(rejected))
    && forall c :: c in rejected ==> !Usable(cfg, c, now, alive)
  }

  /** What the object shows after a get: kept of p's connections, torn closed, r leased. */
  ghost predicate Left(s: State, s': State, p: Principal, l: nat, kept: nat, r: Option<Conn>, torn: seq<nat>)
    requires kept <= |At(s.held, Idle(p))|
  {
    && (forall q :: At(s'.held, Idle(q)) == if q == p then At(s.held, Idle(p))[..kept] else At(s.held, Idle(q)))
    && Ids(At(s'.held, Closed)) == Ids(At(s.held, Closed)) + torn
    && At(s'.held, Leased(l)) == if r.Some? then [r.value] else []
  }

  lemma ReuseLeft(s: State, s': State, p: Principal, l: nat, kept: nat, dialled: Option<Conn>)
    requires kept < |At(s.held, Idle(p))| && AfterGet(s, s', p, l, |At(s.held, Idle(p))| - kept - 1, dialled)
    ensures var conns := At(s.held, Idle(p)); Left(s, s', p, l, kept, Some(conns[kept]), Reverse(Ids(conns[kept + 1..])))
  {
    var conns := At(s.held, Idle(p));
    var n := |conns| - kept - 1;
    assert |conns| - n == kept + 1;
  }

  lemma DialLeft(s: State, s': State, p: Principal, l: nat, dialled: Option<Conn>)
    requires AfterGet(s, s', p, l, |At(s.held, Idle(p))|, dialled)
    ensures var conns := At(s.held, Idle(p)); Left(s, s', p, l, 0, dialled, Reverse(Ids(conns[0..])))
  {
  }

  /** The calls of a get that its state can take: the call entered, the lease new, the dialled
      connection new. */
  ghost predicate CanGet(s: State, t: nat, p: Principal, now: int, l: nat, dialled: Option<Conn>) {
    && Entered(s, t, p, now) && l !in s.spent && At(s.held, Leased(l)) == []
    && (dialled.Some? ==> dialled.value.owner == p && dialled.value.idleAt == UNKNOWN && dialled.value.id !in s.dialled)
  }

  lemma GotIsRun(cfg: Config, s: State, t: nat, p: Principal, now: int, alive: Option<set<nat>>, l: nat, dialled: Option<Conn>,
                 kept: nat, r: Option<Conn>, torn: seq<nat>) returns (steps: seq<Step>)
    requires CanGet(s, t, p, now, l, dialled)
    requires kept <= |At(s.held, Idle(p))| && Got(cfg, At(s.held, Idle(p)), kept, now, alive, dialled, r, torn)
    ensures Left(s, Run(cfg, s, steps), p, l, kept, r, torn)
  {
    var before := At(s.held, Idle(p));
    if kept < |before| && Usable(cfg, before[kept], now, alive) {
      steps := ReusedIsRun(cfg, s, t, p, now, alive, l, dialled, kept);
    } else {
      steps := GetSteps(t, l, alive, |before|, false, dialled);
      assert before[0..] == before;
      GetFinishes(cfg, s, t, p, now, alive, l, |before|, dialled);
      DialLeft(s, Run(cfg, s, steps), p, l, dialled);
    }
  }

  lemma ReusedIsRun(cfg: Config, s: State, t: nat, p: Principal, now: int, alive: Option<set<nat>>, l: nat, dialled: Option<Conn>,
                    kept: nat) returns (steps: seq<Step>)
    requires CanGet(s, t, p, now, l, dialled) && kept < |At(s.held, Idle(p))|
    requires var conns := At(s.held, Idle(p));
             Usable(cfg, conns[kept], now, alive) && forall c :: c in conns[kept + 1..] ==> !Usable(cfg, c, now, alive)
    ensures var conns := At(s.held, Idle(p));
            Left(s, Run(cfg, s, steps), p, l, kept, Some(conns[kept]), Reverse(Ids(conns[kept + 1..])))
  {
    var n := |At(s.held, Idle(p))| - kept - 1;
    steps := GetSteps(t, l, alive, n, true, dialled);
    GetFinishes(cfg, s, t, p, now, alive, l, n, dialled);
    ReuseLeft(s, Run(cfg, s, steps), p, l, kept, dialled);
  }

  /** A whole get is a run of the protocol that ends with the connection leased. */
  method Get(pool: Pool, p: Principal, now: int, alive: Option<set<nat>>, dialled: Option<Conn>,
             ghost s: State, ghost t: nat, ghost l: nat)
    returns (r: Option<Conn>, ghost steps: seq<Step>)
    requires pool.Valid() && ShowsClosed(s, pool) && CanGet(s, t, p, now, l, dialled)
    modifies pool
    ensures pool.Valid() && ShowsClosed(Run(pool.cfg, s, steps), pool)
    ensures At(Run(pool.cfg, s, steps).held, Leased(l)) == if r.Some? then [r.value] else []
  {
    ghost var before, log := pool.Parked(p), pool.closed;
    r := pool.Get(p, now, alive, dialled);
    ghost var kept := |pool.Parked(p)|;
    ghost var torn := pool.closed[|log|..];
    assert Got(pool.cfg, before, kept, now, alive, dialled, r, torn);
    steps := GotIsRun(pool.cfg, s, t, p, now, alive, l, dialled, kept, r, torn);
  }
}
