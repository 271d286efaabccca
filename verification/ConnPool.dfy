/** cmd/mailboxd/connpool.go: idle backend connections per principal, handed out as leases
    that come back to the pool when closed. */
module ConnPool {
  import opened Wrappers
  import opened Sequences
  import opened Custody

  type Principal = string

  /** The zero time: an expiry that is not known. */
  const UNKNOWN: int := 0

  /** A connection with the principal it was dialled for, the expiry of the token that
      authenticates it, and the instant it was parked. */
  datatype Conn = Conn(id: nat, owner: Principal, expiresAt: int, idleAt: int)

  datatype Config = Config(maxIdle: int, idleTimeout: int, skew: int)

  predicate Expired(cfg: Config, c: Conn, now: int) { c.expiresAt == UNKNOWN || now >= c.expiresAt - cfg.skew }

  predicate TimedOut(cfg: Config, c: Conn, now: int) { cfg.idleTimeout > 0 && now - c.idleAt > cfg.idleTimeout }

  predicate Stale(cfg: Config, c: Conn, now: int) { Expired(cfg, c, now) || TimedOut(cfg, c, now) }

  /** A checkout probe: None when no health check is configured. */
  predicate Healthy(alive: Option<set<nat>>, c: Conn) { alive.None? || c.id in alive.value }

  predicate Usable(cfg: Config, c: Conn, now: int, alive: Option<set<nat>>) {
    !Stale(cfg, c, now) && Healthy(alive, c)
  }

  predicate HasRoom(cfg: Config, parked: seq<Conn>) { cfg.maxIdle <= 0 || |parked| < cfg.maxIdle }

  function Ids(s: seq<Conn>): seq<nat> { seq(|s|, i requires 0 <= i < |s| => s[i].id) }

  /** What a reap at now leaves parked, and what it tears down. */
  function Fresh(cfg: Config, s: seq<Conn>, now: int): seq<Conn> { Filter(s, c => !Stale(cfg, c, now)) }

  function Dead(cfg: Config, s: seq<Conn>, now: int): seq<Conn> { Filter(s, c => Stale(cfg, c, now)) }

  // ---- The pool object: each method is one critical section or runs between them ----

  lemma ReverseFirst(c: Conn, rest: seq<Conn>)
    ensures Reverse(Ids([c] + rest)) == Reverse(Ids(rest)) + [c.id]
  {
    assert Ids([c] + rest) == [c.id] + Ids(rest);
  }

  class Pool {
    const cfg: Config
    var idle: map<Principal, seq<Conn>>
    /** Every Close issued on a backend connection, in order. */
    var closed: seq<nat>

    /** A principal with nothing parked has no entry. */
    ghost predicate Valid()
      reads this
    {
      forall p :: p in idle ==> idle[p] != []
    }

    function Parked(p: Principal): seq<Conn>
      reads this
    {
      At(idle, p)
    }

    constructor (cfg: Config)
      ensures this.cfg == cfg && Valid() && idle == map[] && closed == []
    {
      this.cfg := cfg;
      idle := map[];
      closed := [];
    }

    method Pop(p: Principal) returns (c: Option<Conn>)
      requires Valid()
      modifies this`idle
      ensures Valid()
      ensures old(Parked(p)) == [] ==> c == None && idle == old(idle)
      ensures old(Parked(p)) != [] ==> c.Some? && old(Parked(p)) == Parked(p) + [c.value]
      ensures forall q :: q != p ==> Parked(q) == old(Parked(q))
    {
      if p !in idle {
        return None;
      }
      var conns := idle[p];
      c := Some(conns[|conns| - 1]);
      idle := idle[p := conns[..|conns| - 1]];
      if idle[p] == [] {
        idle := idle - {p};
      }
    }

    /** Give c back under p: parked, or torn down when its token is too old or p is full. */
    method Checkin(p: Principal, c: Conn, now: int)
      requires Valid()
      modifies this
      ensures Valid()
      ensures var back := c.(idleAt := now);
              if Expired(cfg, c, now) || !HasRoom(cfg, old(Parked(p)))
              then Parked(p) == old(Parked(p)) && closed == old(closed) + [c.id]
              else Parked(p) == old(Parked(p)) + [back] && closed == old(closed)
      ensures forall q :: q != p ==> Parked(q) == old(Parked(q))
    {
      if c.expiresAt == UNKNOWN || !(now < c.expiresAt - cfg.skew) {
        closed := closed + [c.id];
        return;
      }
      var conns := At(idle, p);
      if cfg.maxIdle > 0 && |conns| >= cfg.maxIdle {
        closed := closed + [c.id];
        return;
      }
      idle := idle[p := conns + [c.(idleAt := now)]];
    }

    /** The last usable parked connection is handed out; those above it are torn down, newest
        first. With none usable a new connection is dialled, which may fail. */
    method Get(p: Principal, now: int, alive: Option<set<nat>>, dialled: Option<Conn>) returns (r: Option<Conn>)
      requires Valid()
      requires dialled.Some? ==> dialled.value.owner == p
      modifies this
      ensures Valid()
      ensures forall q :: q != p ==> Parked(q) == old(Parked(q))
      ensures |Parked(p)| <= |old(Parked(p))| && Parked(p) == old(Parked(p))[..|Parked(p)|]
      ensures var reused := |Parked(p)| < |old(Parked(p))| && Usable(cfg, old(Parked(p))[|Parked(p)|], now, alive);
              var rejected := old(Parked(p))[|Parked(p)| + (if reused then 1 else 0)..];
              && (if reused then r == Some(old(Parked(p))[|Parked(p)|]) else Parked(p) == [] && r == dialled)
              && closed == old(closed) + Reverse(Ids(rejected))
              && forall c :: c in rejected ==> !Usable(cfg, c, now, alive)
    {
      ghost var before, log := Parked(p), closed;
      ghost var n := |before|;
      while true
        invariant Valid() && 0 <= n <= |before| && Parked(p) == before[..n]
        invariant forall q :: q != p ==> Parked(q) == old(Parked(q))
        invariant closed == log + Reverse(Ids(before[n..]))
        invariant forall c :: c in before[n..] ==> !Usable(cfg, c, now, alive)
        decreases n
      {
        var popped := Pop(p);
        if popped.None? {
          break;
        }
        var c := popped.value;
        n := n - 1;
        assert before[n..] == [c] + before[n + 1..];
        assert Parked(p) == before[..n];
        if Expired(cfg, c, now) || TimedOut(cfg, c, now) || !Healthy(alive, c) {
          closed := closed + [c.id];
          ReverseFirst(c, before[n + 1..]);
          continue;
        }
        return Some(c);
      }
      r := dialled;
    }

    /** The compaction of one principal's slice: kept stay in order, dead go to the list. */
    method Compact(conns: seq<Conn>, now: int) returns (kept: seq<Conn>, dead: seq<Conn>)
      ensures kept == Fresh(cfg, conns, now) && dead == Dead(cfg, conns, now)
    {
      kept, dead := [], [];
      for i := 0 to |conns|
        invariant kept == Fresh(cfg, conns[..i], now) && dead == Dead(cfg, conns[..i], now)
      {
        assert conns[..i + 1][..i] == conns[..i];
        if Expired(cfg, conns[i], now) || TimedOut(cfg, conns[i], now) {
          dead := dead + [conns[i]];
        } else {
          kept := kept + [conns[i]];
        }
      }
      assert conns[..|conns|] == conns;
    }

    /** One round of the sweep: p keeps its fresh connections, the others are returned. */
    method SweepOne(p: Principal, now: int) returns (gone: seq<nat>)
      requires Valid() && p in idle
      modifies this`idle
      ensures Valid()
      ensures forall q :: Parked(q) == if q == p then Fresh(cfg, old(Parked(p)), now) else old(Parked(q))
      ensures gone == Ids(Dead(cfg, old(Parked(p)), now))
    {
      var kept, dead := Compact(idle[p], now);
      if kept == [] {
        idle := idle - {p};
      } else {
        idle := idle[p := kept];
      }
      gone := Ids(dead);
    }

    /** Every principal keeps exactly its fresh connections, in order; exactly the others
        are closed, in an order the map iteration picks. */
    method Reap(now: int)
      requires Valid()
      modifies this
      ensures Valid()
      ensures forall p :: Parked(p) == Fresh(cfg, old(Parked(p)), now)
      ensures exists torn :: closed == old(closed) + torn && (ParkedOnceEach(old(idle)) ==> NoDuplicates(torn))
                             && forall id :: id in torn <==> exists p :: DeadFor(cfg, old(idle), now, p, id)
    {
      ghost var was := idle;
      var torn: seq<nat> := [];
      var todo := idle.Keys;
      ghost var done: set<Principal> := {};
      while todo != {}
        invariant Valid() && done + todo == was.Keys && done !! todo && unchanged(this`closed)
        invariant forall p :: Parked(p) == if p in done then Fresh(cfg, At(was, p), now) else At(was, p)
        invariant TornFrom(cfg, was, now, done, torn)
        decreases todo
      {
        var p :| p in todo;
        assert Parked(p) == was[p];
        var gone := SweepOne(p, now);
        TornMore(cfg, was, now, done, p, torn, gone);
        todo, done := todo - {p}, done + {p};
        torn := torn + gone;
      }
      closed := closed + torn;
      AllTorn(cfg, was, now, done, torn);
      assert closed == old(closed) + torn;
    }

    /** Shutdown: everything parked is closed and the pool is empty. Leases still out are
        not touched; giving one back parks it again. */
    method CloseAll()
      requires Valid()
      modifies this
      ensures Valid() && idle == map[]
      ensures exists torn :: closed == old(closed) + torn && (ParkedOnceEach(old(idle)) ==> NoDuplicates(torn))
                             && forall id :: id in torn <==> exists p :: ParkedFor(old(idle), p, id)
    {
      var parked := idle;
      idle := map[];
      var torn: seq<nat> := [];
      var todo := parked.Keys;
      ghost var done: set<Principal> := {};
      while todo != {}
        invariant idle == map[] && closed == old(closed) && done + todo == parked.Keys && done !! todo
        invariant forall id :: id in torn <==> exists p :: p in done && ParkedFor(parked, p, id)
        invariant ParkedOnceEach(parked) ==> NoDuplicates(torn)
        decreases todo
      {
        var p :| p in todo;
        if ParkedOnceEach(parked) {
          ClosedOnce(parked, done, p, torn);
        }
        todo, done := todo - {p}, done + {p};
        torn := torn + Ids(parked[p]);
      }
      closed := closed + torn;
      assert forall p, id :: ParkedFor(parked, p, id) ==> p in done;
      assert closed == old(closed) + torn && (ParkedOnceEach(parked) ==> NoDuplicates(torn)) &&
             forall id :: id in torn <==> exists p :: ParkedFor(parked, p, id);
    }
  }

  ghost predicate ParkedFor(idle: map<Principal, seq<Conn>>, p: Principal, id: nat) { id in Ids(At(idle, p)) }

  /** No connection is parked twice, under one principal or two. */
  ghost predicate ParkedOnceEach(idle: map<Principal, seq<Conn>>) {
    && (forall p :: NoDuplicates(Ids(At(idle, p))))
    && (forall p, q, id :: ParkedFor(idle, p, id) && ParkedFor(idle, q, id) ==> p == q)
  }

  lemma ClosedOnce(idle: map<Principal, seq<Conn>>, done: set<Principal>, p: Principal, torn: seq<nat>)
    requires ParkedOnceEach(idle) && NoDuplicates(torn) && p !in done
    requires forall id :: id in torn ==> exists q :: q in done && ParkedFor(idle, q, id)
    ensures NoDuplicates(torn + Ids(At(idle, p)))
  {
    forall id | id in torn ensures id !in Ids(At(idle, p)) {
      var q :| q in done && ParkedFor(idle, q, id);
      assert ParkedFor(idle, p, id) ==> p == q;
    }
    ConcatNoDuplicates(torn, Ids(At(idle, p)));
  }

  lemma {:induction false} DeadAreParked(cfg: Config, conns: seq<Conn>, now: int)
    requires NoDuplicates(Ids(conns))
    ensures NoDuplicates(Ids(Dead(cfg, conns, now)))
    ensures forall id :: id in Ids(Dead(cfg, conns, now)) ==> id in Ids(conns)
  {
    if conns != [] {
      var init, last := conns[..|conns| - 1], conns[|conns| - 1];
      assert Ids(conns) == Ids(init) + [last.id];
      ConcatNoDuplicates(Ids(init), [last.id]);
      DeadAreParked(cfg, init, now);
      var dead := Dead(cfg, init, now);
      assert Ids(dead + [last]) == Ids(dead) + [last.id];
      ConcatNoDuplicates(Ids(dead), [last.id]);
    }
  }

  lemma DeadOnce(cfg: Config, idle: map<Principal, seq<Conn>>, now: int, done: set<Principal>, p: Principal, torn: seq<nat>)
    requires ParkedOnceEach(idle) && NoDuplicates(torn) && p !in done
    requires forall id :: id in torn ==> exists q :: q in done && DeadFor(cfg, idle, now, q, id)
    ensures NoDuplicates(torn + Ids(Dead(cfg, At(idle, p), now)))
  {
    DeadAreParked(cfg, At(idle, p), now);
    forall id | id in torn ensures id !in Ids(Dead(cfg, At(idle, p), now)) {
      var q :| q in done && DeadFor(cfg, idle, now, q, id);
      DeadAreParked(cfg, At(idle, q), now);
      assert ParkedFor(idle, q, id);
      assert ParkedFor(idle, p, id) ==> p == q;
    }
    ConcatNoDuplicates(torn, Ids(Dead(cfg, At(idle, p), now)));
  }

  ghost predicate DeadFor(cfg: Config, idle: map<Principal, seq<Conn>>, now: int, p: Principal, id: nat) {
    id in Ids(Dead(cfg, At(idle, p), now))
  }

  /** torn lists what the sweep of the principals in done closes. */
  ghost predicate TornFrom(cfg: Config, was: map<Principal, seq<Conn>>, now: int, done: set<Principal>, torn: seq<nat>) {
    && (ParkedOnceEach(was) ==> NoDuplicates(torn))
    && forall id :: id in torn <==> exists p :: p in done && DeadFor(cfg, was, now, p, id)
  }

  lemma TornMore(cfg: Config, was: map<Principal, seq<Conn>>, now: int, done: set<Principal>, p: Principal, torn: seq<nat>, gone: seq<nat>)
    requires TornFrom(cfg, was, now, done, torn) && p !in done
    requires gone == Ids(Dead(cfg, At(was, p), now))
    ensures TornFrom(cfg, was, now, done + {p}, torn + gone)
  {
    if ParkedOnceEach(was) {
      DeadOnce(cfg, was, now, done, p, torn);
    }
    forall id
      ensures id in torn + gone <==> exists q :: q in done + {p} && DeadFor(cfg, was, now, q, id)
    {
      if id in torn {
        var q :| q in done && DeadFor(cfg, was, now, q, id);
        assert q in done + {p};
      }
      if id in gone {
        assert p in done + {p} && DeadFor(cfg, was, now, p, id);
      }
    }
  }

  lemma AllTorn(cfg: Config, was: map<Principal, seq<Conn>>, now: int, done: set<Principal>, torn: seq<nat>)
    requires TornFrom(cfg, was, now, done, torn) && done == was.Keys
    ensures ParkedOnceEach(was) ==> NoDuplicates(torn)
    ensures forall id :: id in torn <==> exists p :: DeadFor(cfg, was, now, p, id)
  {
    assert forall p, id :: DeadFor(cfg, was, now, p, id) ==> p in done;
  }

  /** What get hands out. Close gives the connection back once; closing again does nothing. */
  class Lease {
    const pool: Pool
    const conn: Conn
    var released: bool

    constructor (pool: Pool, conn: Conn)
      ensures this.pool == pool && this.conn == conn && !released
    {
      this.pool := pool;
      this.conn := conn;
      released := false;
    }

    method Close(now: int)
      requires pool.Valid()
      modifies this, pool
      ensures pool.Valid() && released
      ensures old(released) ==> pool.idle == old(pool.idle) && pool.closed == old(pool.closed)
      ensures !old(released) ==>
                if Expired(pool.cfg, conn, now) || !HasRoom(pool.cfg, old(pool.Parked(conn.owner)))
                then pool.Parked(conn.owner) == old(pool.Parked(conn.owner)) && pool.closed == old(pool.closed) + [conn.id]
                else pool.Parked(conn.owner) == old(pool.Parked(conn.owner)) + [conn.(idleAt := now)] && pool.closed == old(pool.closed)
      ensures forall q :: q != conn.owner ==> pool.Parked(q) == old(pool.Parked(q))
    {
      if !released {
        released := true;
        pool.Checkin(conn.owner, conn, now);
      }
    }
  }
}
