/** The pool under concurrency: the critical sections of get, checkin, reap and closeAll as
    atomic steps, with every connection in flight between them at a place of its own. */
module PoolProtocol {
  import opened Wrappers
  import opened Sequences
  import opened Custody
  import opened ConnPool

  datatype Place =
    | Idle(owner: Principal)
    | Checking(call: nat)                     // popped, not yet judged
    | Leased(lease: nat)
    | Returning(lease: nat)                   // given back, waiting for the lock
    | Dying(batch: nat, owner: Principal)     // swept up by a reap or a shutdown
    | Closed

  /** A get call under way: whose, and the clock it read on entry. */
  datatype Call = Call(owner: Principal, now: int, dialling: bool)

  /** A parked connection handed out again, and the call it was handed to. */
  datatype Reuse = Reuse(conn: Conn, call: Call)

  datatype State = State(held: map<Place, seq<Conn>>, dialled: map<nat, Conn>, calls: map<nat, Call>,
                         spent: set<nat>, reuses: set<Reuse>)

  datatype Step =
    | Enter(call: nat, owner: Principal, now: int)
    | Pop(call: nat)
    | Reject(call: nat, alive: Option<set<nat>>)
    | Grant(call: nat, lease: nat, alive: Option<set<nat>>)
    | Dial(call: nat, lease: nat, id: nat, expiresAt: int)
    | DialFailed(call: nat)
    | Release(lease: nat, now: int)
    | Settle(lease: nat)
    | Reap(batch: nat, now: int)
    | CloseAll(batch: nat)
    | Teardown(batch: nat, owner: Principal)

  const INITIAL: State := State(map[], map[], map[], {}, {})

  /** c goes from one place, where rest remains, to the end of another. */
  function Pass(s: State, from: Place, rest: seq<Conn>, to: Place, c: Conn): State {
    s.(held := s.held[from := rest][to := At(s.held, to) + [c]])
  }

  function IdlePlaces(s: State): set<Place> { set h | h in s.held && h.Idle? }

  /** One critical section over all principals: stays says what remains parked, and the
      rest becomes the batch's to close. */
  function SweepIdle(s: State, batch: nat, stays: seq<Conn> -> seq<Conn>, goes: seq<Conn> -> seq<Conn>): State {
    var swept := set h | h in IdlePlaces(s) :: Dying(batch, h.owner);
    s.(held := map h | h in s.held.Keys + swept ::
                 if h in swept then goes(At(s.held, Idle(h.owner)))
                 else if h.Idle? then stays(s.held[h])
                 else s.held[h],
       spent := s.spent + {batch})
  }

  /** A step that is not enabled changes nothing. */
  function Next(cfg: Config, s: State, step: Step): State {
    match step
    case Enter(t, p, now) =>
      if t in s.calls || At(s.held, Checking(t)) != [] then s else s.(calls := s.calls[t := Call(p, now, false)])
    case Pop(t) =>
      if t !in s.calls || s.calls[t].dialling || At(s.held, Checking(t)) != [] then s
      else
        var p := s.calls[t].owner;
        var conns := At(s.held, Idle(p));
        if conns == [] then s.(calls := s.calls[t := s.calls[t].(dialling := true)])
        else Pass(s, Idle(p), conns[..|conns| - 1], Checking(t), conns[|conns| - 1])
    case Reject(t, alive) =>
      var c := At(s.held, Checking(t));
      if t !in s.calls || c == [] || Usable(cfg, c[0], s.calls[t].now, alive) then s
      else Pass(s, Checking(t), [], Closed, c[0])
    case Grant(t, l, alive) =>
      var c := At(s.held, Checking(t));
      if t !in s.calls || c == [] || l in s.spent || !Usable(cfg, c[0], s.calls[t].now, alive) then s
      else Pass(s, Checking(t), [], Leased(l), c[0]).(calls := s.calls - {t}, spent := s.spent + {l},
                                                      reuses := s.reuses + {Reuse(c[0], s.calls[t])})
    case Dial(t, l, id, expiresAt) =>
      if t !in s.calls || !s.calls[t].dialling || l in s.spent || id in s.dialled then s
      else
        var c := Conn(id, s.calls[t].owner, expiresAt, UNKNOWN);
        State(s.held[Leased(l) := [c]], s.dialled[id := c], s.calls - {t}, s.spent + {l}, s.reuses)
    case DialFailed(t) =>
      if t !in s.calls || !s.calls[t].dialling then s else s.(calls := s.calls - {t})
    case Release(l, now) =>
      var c := At(s.held, Leased(l));
      if c == [] then s
      else if Expired(cfg, c[0], now) then Pass(s, Leased(l), [], Closed, c[0])
      else Pass(s, Leased(l), [], Returning(l), c[0].(idleAt := now))
    case Settle(l) =>
      var c := At(s.held, Returning(l));
      if c == [] then s
      else
        var p := c[0].owner;
        if HasRoom(cfg, At(s.held, Idle(p))) then Pass(s, Returning(l), [], Idle(p), c[0])
        else Pass(s, Returning(l), [], Closed, c[0])
    case Reap(b, now) =>
      if b in s.spent then s
      else SweepIdle(s, b, conns => Fresh(cfg, conns, now), conns => Dead(cfg, conns, now))
    case CloseAll(b) =>
      if b in s.spent then s else SweepIdle(s, b, conns => [], conns => conns)
    case Teardown(b, p) =>
      var conns := At(s.held, Dying(b, p));
      if conns == [] then s else Pass(s, Dying(b, p), conns[1..], Closed, conns[0])
  }

  function View(held: map<Place, seq<Conn>>): map<Place, seq<nat>> { map h | h in held :: Ids(held[h]) }

  /** Where a connection of one owner may be. */
  ghost predicate InPlace(s: State, h: Place, c: Conn) {
    && c.id in s.dialled && c.owner == s.dialled[c.id].owner && c.expiresAt == s.dialled[c.id].expiresAt
    && (h.Idle? || h.Dying? ==> c.owner == h.owner)
    && (h.Checking? ==> h.call in s.calls && c.owner == s.calls[h.call].owner)
  }

  /** A lease is out or coming back, not both; what is being checked belongs to a call that
      does not dial yet. */
  ghost predicate Phases(s: State) {
    && (forall l :: At(s.held, Leased(l)) == [] || At(s.held, Returning(l)) == [])
    && (forall t :: At(s.held, Checking(t)) != [] ==> t in s.calls && !s.calls[t].dialling)
  }

  ghost predicate Tidy(cfg: Config, s: State) {
    && Phases(s)
    && AllInPlace(s)
    && Within(cfg, s)
    && (forall r :: r in s.reuses ==>
          r.conn.owner == r.call.owner && !Expired(cfg, r.conn, r.call.now) && !TimedOut(cfg, r.conn, r.call.now))
  }

  ghost predicate AllInPlace(s: State) {
    forall h: Place, i :: 0 <= i < |At(s.held, h)| ==> InPlace(s, h, At(s.held, h)[i])
  }

  /** One connection at most with a call or a lease, none with what has not begun, and the bound
      on what is parked. */
  ghost predicate Within(cfg: Config, s: State) {
    && (forall h: Place :: h.Checking? || h.Leased? || h.Returning? ==> |At(s.held, h)| <= 1)
    && (forall h: Place :: (h.Leased? || h.Returning?) && h.lease !in s.spent ==> At(s.held, h) == [])
    && (forall h: Place :: h.Dying? && h.batch !in s.spent ==> At(s.held, h) == [])
    && (cfg.maxIdle > 0 ==> forall h: Place :: h.Idle? ==> |At(s.held, h)| <= cfg.maxIdle)
  }

  ghost predicate Inv(cfg: Config, s: State) {
    ExactlyOnce(View(s.held), s.dialled.Keys) && Tidy(cfg, s)
  }

  lemma ViewAt(held: map<Place, seq<Conn>>, h: Place)
    ensures At(View(held), h) == Ids(At(held, h))
  {
  }

  /** c, under some earlier parking time, is the first or last connection at its place. */
  ghost predicate Takes(s: State, from: Place, rest: seq<Conn>, c: Conn) {
    var conns := At(s.held, from);
    && conns != []
    && ((rest == conns[1..] && conns[0].id == c.id) || (rest == conns[..|conns| - 1] && conns[|conns| - 1].id == c.id))
  }

  lemma PassExactlyOnce(s: State, from: Place, rest: seq<Conn>, to: Place, c: Conn)
    requires ExactlyOnce(View(s.held), s.dialled.Keys) && from != to
    requires Takes(s, from, rest, c)
    ensures ExactlyOnce(View(Pass(s, from, rest, to, c).held), s.dialled.Keys)
  {
    var v, conns := View(s.held), At(s.held, from);
    ViewAt(s.held, from);
    ViewAt(s.held, to);
    var a, b, r := Ids(conns), At(v, to), Ids(rest);
    assert NoDuplicates(a) && NoDuplicates(b);
    assert a == [c.id] + r || a == r + [c.id];
    assert c.id in a && c.id !in b;
    ConcatNoDuplicates([c.id], r);
    ConcatNoDuplicates(r, [c.id]);
    ConcatNoDuplicates(b, [c.id]);
    assert forall x :: x in r ==> x in a;
    Hand(v, s.dialled.Keys, from, r, to, b + [c.id]);
    assert Ids(At(s.held, to) + [c]) == b + [c.id];
    assert View(Pass(s, from, rest, to, c).held) == v[from := r][to := b + [c.id]];
  }

  lemma PassedInPlace(cfg: Config, s: State, from: Place, rest: seq<Conn>, to: Place, c: Conn, h: Place, i: nat)
    requires Tidy(cfg, s) && from != to
    requires Takes(s, from, rest, c) && InPlace(s, to, c)
    requires i < |At(Pass(s, from, rest, to, c).held, h)|
    ensures InPlace(Pass(s, from, rest, to, c), h, At(Pass(s, from, rest, to, c).held, h)[i])
  {
    if h == from {
      assert rest[i] == At(s.held, from)[i] || rest[i] == At(s.held, from)[i + 1];
      assert InPlace(s, from, rest[i]);
    } else if h != to || i < |At(s.held, to)| {
      assert InPlace(s, h, At(s.held, h)[i]);
    }
  }

  lemma PassKeepsWithin(cfg: Config, s: State, s': State, from: Place, rest: seq<Conn>, to: Place, c: Conn)
    requires Within(cfg, s) && from != to && s' == Pass(s, from, rest, to, c) && Takes(s, from, rest, c)
    requires to.Checking? || to.Leased? || to.Returning? ==> At(s.held, to) == []
    requires to.Leased? || to.Returning? ==> to.lease in s.spent
    requires to.Idle? ==> HasRoom(cfg, At(s.held, to))
    requires !to.Dying?
    ensures Within(cfg, s')
  {
    assert forall h :: At(s'.held, h) == if h == to then At(s.held, to) + [c] else if h == from then rest else At(s.held, h);
    assert At(s.held, from) != [] && |rest| < |At(s.held, from)|;
  }

  /** The invariant apart from custody. */
  lemma PassKeepsTidy(cfg: Config, s: State, from: Place, rest: seq<Conn>, to: Place, c: Conn)
    requires Tidy(cfg, s) && from != to
    requires Takes(s, from, rest, c) && InPlace(s, to, c)
    requires to.Checking? || to.Leased? || to.Returning? ==> At(s.held, to) == []
    requires to.Leased? || to.Returning? ==> to.lease in s.spent
    requires to.Idle? ==> HasRoom(cfg, At(s.held, to))
    requires !to.Dying? && Phases(Pass(s, from, rest, to, c))
    ensures Tidy(cfg, Pass(s, from, rest, to, c))
  {
    var s' := Pass(s, from, rest, to, c);
    PassKeepsWithin(cfg, s, s', from, rest, to, c);
    forall h: Place, i | 0 <= i < |At(s'.held, h)| ensures InPlace(s', h, At(s'.held, h)[i]) {
      PassedInPlace(cfg, s, from, rest, to, c, h, i);
    }
  }

  lemma PassKeepsInv(cfg: Config, s: State, from: Place, rest: seq<Conn>, to: Place, c: Conn)
    requires Inv(cfg, s) && from != to
    requires Takes(s, from, rest, c) && InPlace(s, to, c)
    requires to.Checking? || to.Leased? || to.Returning? ==> At(s.held, to) == []
    requires to.Leased? || to.Returning? ==> to.lease in s.spent
    requires to.Idle? ==> HasRoom(cfg, At(s.held, to))
    requires !to.Dying? && Phases(Pass(s, from, rest, to, c))
    ensures Inv(cfg, Pass(s, from, rest, to, c))
  {
    PassExactlyOnce(s, from, rest, to, c);
    PassKeepsTidy(cfg, s, from, rest, to, c);
  }

  /** Grants and lease numbers only change the books. */
  lemma BooksKeepTidy(cfg: Config, s: State, calls: map<nat, Call>, spent: set<nat>, reuses: set<Reuse>)
    requires Tidy(cfg, s) && s.spent <= spent
    requires forall t :: At(s.held, Checking(t)) != [] ==>
               t in calls && (t in s.calls ==> calls[t].owner == s.calls[t].owner) && !calls[t].dialling
    requires forall r :: r in reuses ==>
               r.conn.owner == r.call.owner && !Expired(cfg, r.conn, r.call.now) && !TimedOut(cfg, r.conn, r.call.now)
    ensures Tidy(cfg, s.(calls := calls, spent := spent, reuses := reuses))
  {
    var s' := s.(calls := calls, spent := spent, reuses := reuses);
    forall h: Place, i | 0 <= i < |At(s'.held, h)| ensures InPlace(s', h, At(s'.held, h)[i]) {
      assert InPlace(s, h, At(s.held, h)[i]);
    }
  }

  lemma BooksKeepInv(cfg: Config, s: State, calls: map<nat, Call>, spent: set<nat>, reuses: set<Reuse>)
    requires Inv(cfg, s) && s.spent <= spent
    requires forall t :: At(s.held, Checking(t)) != [] ==>
               t in calls && (t in s.calls ==> calls[t].owner == s.calls[t].owner) && !calls[t].dialling
    requires forall r :: r in reuses ==>
               r.conn.owner == r.call.owner && !Expired(cfg, r.conn, r.call.now) && !TimedOut(cfg, r.conn, r.call.now)
    ensures Inv(cfg, s.(calls := calls, spent := spent, reuses := reuses))
  {
    BooksKeepTidy(cfg, s, calls, spent, reuses);
  }

  lemma DialExactlyOnce(s: State, lease: nat, c: Conn)
    requires ExactlyOnce(View(s.held), s.dialled.Keys) && c.id !in s.dialled
    requires At(s.held, Leased(lease)) == []
    ensures ExactlyOnce(View(s.held[Leased(lease) := [c]]), s.dialled[c.id := c].Keys)
  {
    ViewAt(s.held, Leased(lease));
    Custody.Enter(View(s.held), s.dialled.Keys, Leased(lease), c.id);
    assert Ids([c]) == [c.id] == At(View(s.held), Leased(lease)) + [c.id];
    assert View(s.held[Leased(lease) := [c]]) == View(s.held)[Leased(lease) := [c.id]];
    assert s.dialled[c.id := c].Keys == s.dialled.Keys + {c.id};
  }

  lemma DialKeepsInv(cfg: Config, s: State, lease: nat, c: Conn)
    requires Inv(cfg, s) && lease in s.spent && c.id !in s.dialled
    requires At(s.held, Leased(lease)) == At(s.held, Returning(lease)) == []
    ensures Inv(cfg, s.(held := s.held[Leased(lease) := [c]], dialled := s.dialled[c.id := c]))
  {
    DialExactlyOnce(s, lease, c);
    DialKeepsTidy(cfg, s, lease, c);
  }

  lemma DialKeepsTidy(cfg: Config, s: State, lease: nat, c: Conn)
    requires Tidy(cfg, s) && lease in s.spent && c.id !in s.dialled
    requires At(s.held, Leased(lease)) == At(s.held, Returning(lease)) == []
    ensures Tidy(cfg, s.(held := s.held[Leased(lease) := [c]], dialled := s.dialled[c.id := c]))
  {
    var s' := s.(held := s.held[Leased(lease) := [c]], dialled := s.dialled[c.id := c]);
    assert forall h: Place :: At(s'.held, h) == if h == Leased(lease) then [c] else At(s.held, h);
    forall h: Place, i | 0 <= i < |At(s'.held, h)| ensures InPlace(s', h, At(s'.held, h)[i]) {
      assert h != Leased(lease) ==> InPlace(s, h, At(s.held, h)[i]);
    }
  }

  /** A split of a slice into what stays and what goes. */
  ghost predicate Splits(conns: seq<Conn>, stay: seq<Conn>, go: seq<Conn>) {
    && |stay| <= |conns|
    && (forall c :: c in conns <==> c in stay || c in go)
    && NoDuplicates(Ids(stay)) && NoDuplicates(Ids(go))
    && (forall c, d :: c in stay && d in go ==> c.id != d.id)
  }

  lemma IdsMembers(s: seq<Conn>)
    ensures forall c :: c in s ==> c.id in Ids(s)
    ensures forall id :: id in Ids(s) ==> exists c :: c in s && c.id == id
  {
    forall c | c in s ensures c.id in Ids(s) {
      var i :| 0 <= i < |s| && s[i] == c;
      assert Ids(s)[i] == c.id;
    }
    forall id | id in Ids(s) ensures exists c :: c in s && c.id == id {
      var i :| 0 <= i < |Ids(s)| && Ids(s)[i] == id;
      assert s[i] in s && s[i].id == id;
    }
  }

  lemma {:induction false} FilterIds(s: seq<Conn>, keep: Conn -> bool)
    requires NoDuplicates(Ids(s))
    ensures NoDuplicates(Ids(Filter(s, keep))) && |Filter(s, keep)| <= |s|
  {
    if s != [] {
      var init := s[..|s| - 1];
      assert Ids(init) == Ids(s)[..|s| - 1];
      FilterIds(init, keep);
      FilterElements(init, keep);
      IdsMembers(init);
      IdsMembers(Filter(init, keep));
      assert Ids(s)[|s| - 1] == s[|s| - 1].id;
      assert s[|s| - 1].id !in Ids(init);
      assert Ids(Filter(init, keep) + [s[|s| - 1]]) == Ids(Filter(init, keep)) + [s[|s| - 1].id];
    }
  }

  lemma DistinctIds(s: seq<Conn>, c: Conn, d: Conn)
    requires NoDuplicates(Ids(s)) && c in s && d in s && c.id == d.id
    ensures c == d
  {
    var i :| 0 <= i < |s| && s[i] == c;
    var j :| 0 <= j < |s| && s[j] == d;
    assert Ids(s)[i] == Ids(s)[j];
  }

  /** Fresh and dead split a principal's slice. */
  lemma ReapSplits(cfg: Config, conns: seq<Conn>, now: int)
    requires NoDuplicates(Ids(conns))
    ensures Splits(conns, Fresh(cfg, conns, now), Dead(cfg, conns, now))
  {
    FilterElements(conns, c => !Stale(cfg, c, now));
    FilterElements(conns, c => Stale(cfg, c, now));
    FilterIds(conns, c => !Stale(cfg, c, now));
    FilterIds(conns, c => Stale(cfg, c, now));
    forall c, d | c in Fresh(cfg, conns, now) && d in Dead(cfg, conns, now) ensures c.id != d.id {
      if c.id == d.id {
        DistinctIds(conns, c, d);
      }
    }
  }

  lemma SweptAt(s: State, batch: nat, stays: seq<Conn> -> seq<Conn>, goes: seq<Conn> -> seq<Conn>, h: Place)
    requires forall p :: At(s.held, Dying(batch, p)) == []
    requires stays([]) == [] && goes([]) == []
    ensures At(SweepIdle(s, batch, stays, goes).held, h) ==
            if h.Idle? then stays(At(s.held, h))
            else if h.Dying? && h.batch == batch then goes(At(s.held, Idle(h.owner)))
            else At(s.held, h)
  {
    if h.Dying? && h.batch == batch && Idle(h.owner) in s.held {
      assert Idle(h.owner) in IdlePlaces(s);
    }
  }

  lemma SweepInPlace(cfg: Config, s: State, s': State, batch: nat, stay: seq<Conn>, go: seq<Conn>, h: Place, c: Conn)
    requires Inv(cfg, s) && s'.dialled == s.dialled && s'.calls == s.calls
    requires if h.Idle? then Splits(At(s.held, h), stay, go) && c in stay
             else if h.Dying? && h.batch == batch then Splits(At(s.held, Idle(h.owner)), stay, go) && c in go
             else c in At(s.held, h)
    ensures InPlace(s', h, c)
  {
    var from := if h.Dying? && h.batch == batch then Idle(h.owner) else h;
    assert c in At(s.held, from);
    var k :| 0 <= k < |At(s.held, from)| && At(s.held, from)[k] == c;
    assert InPlace(s, from, At(s.held, from)[k]);
  }

  lemma SweepKeepsInv(cfg: Config, s: State, batch: nat, stays: seq<Conn> -> seq<Conn>, goes: seq<Conn> -> seq<Conn>)
    requires Inv(cfg, s) && batch !in s.spent
    requires stays([]) == [] && goes([]) == []
    requires forall p :: Splits(At(s.held, Idle(p)), stays(At(s.held, Idle(p))), goes(At(s.held, Idle(p))))
    ensures Inv(cfg, SweepIdle(s, batch, stays, goes))
  {
    var s' := SweepIdle(s, batch, stays, goes);
    assert forall p :: At(s.held, Dying(batch, p)) == [];
    forall h: Place
      ensures At(s'.held, h) == if h.Idle? then stays(At(s.held, h))
                                else if h.Dying? && h.batch == batch then goes(At(s.held, Idle(h.owner)))
                                else At(s.held, h)
    {
      SweptAt(s, batch, stays, goes, h);
    }
    SweepExactlyOnce(s, s', batch, stays, goes, map h | h in IdlePlaces(s) :: Dying(batch, h.owner));
    forall h: Place, i | 0 <= i < |At(s'.held, h)| ensures InPlace(s', h, At(s'.held, h)[i]) {
      if h.Idle? {
        assert h == Idle(h.owner);
      }
      var p := if h.Idle? || h.Dying? then At(s.held, Idle(h.owner)) else [];
      SweepInPlace(cfg, s, s', batch, stays(p), goes(p), h, At(s'.held, h)[i]);
    }
    forall h: Place | h.Idle? ensures |At(s'.held, h)| <= |At(s.held, h)| {
      assert h == Idle(h.owner);
    }
  }

  lemma SplitIds(conns: seq<Conn>, stay: seq<Conn>, go: seq<Conn>)
    requires Splits(conns, stay, go)
    ensures forall id :: id in Ids(stay) ==> id !in Ids(go)
    ensures forall id :: id in Ids(conns) <==> id in Ids(stay) || id in Ids(go)
  {
    IdsMembers(conns);
    IdsMembers(stay);
    IdsMembers(go);
  }

  lemma SweepExactlyOnce(s: State, s': State, batch: nat, stays: seq<Conn> -> seq<Conn>, goes: seq<Conn> -> seq<Conn>,
                         partner: map<Place, Place>)
    requires ExactlyOnce(View(s.held), s.dialled.Keys) && s'.dialled == s.dialled
    requires stays([]) == [] && goes([]) == []
    requires forall p :: At(s.held, Dying(batch, p)) == []
    requires forall p :: Splits(At(s.held, Idle(p)), stays(At(s.held, Idle(p))), goes(At(s.held, Idle(p))))
    requires partner == map h | h in IdlePlaces(s) :: Dying(batch, h.owner)
    requires forall h: Place :: At(s'.held, h) == if h.Idle? then stays(At(s.held, h))
                                else if h.Dying? && h.batch == batch then goes(At(s.held, Idle(h.owner)))
                                else At(s.held, h)
    ensures ExactlyOnce(View(s'.held), s'.dialled.Keys)
  {
    var v, v' := View(s.held), View(s'.held);
    forall h ensures At(v, h) == Ids(At(s.held, h)) && At(v', h) == Ids(At(s'.held, h)) {
      ViewAt(s.held, h);
      ViewAt(s'.held, h);
    }
    forall h | h in partner
      ensures NoDuplicates(At(v', h)) && NoDuplicates(At(v', partner[h]))
      ensures forall c :: c in At(v', h) ==> c !in At(v', partner[h])
      ensures forall c :: c in At(v, h) <==> c in At(v', h) || c in At(v', partner[h])
    {
      assert h == Idle(h.owner);
      SplitIds(At(s.held, h), stays(At(s.held, h)), goes(At(s.held, h)));
    }
    forall o | Idle(o) in partner ensures Dying(batch, o) in partner.Values {
      assert partner[Idle(o)] == Dying(batch, o);
    }
    forall h | h !in partner && h !in partner.Values ensures At(v', h) == At(v, h) {
      if h.Dying? && h.batch == batch {
        assert Idle(h.owner) !in partner;
      }
    }
    Sweep(v, v', s.dialled.Keys, partner);
  }

  lemma PopEmptyKeepsInv(cfg: Config, s: State, t: nat)
    requires Inv(cfg, s) && t in s.calls && At(s.held, Checking(t)) == []
    ensures Inv(cfg, s.(calls := s.calls[t := s.calls[t].(dialling := true)]))
  {
    BooksKeepInv(cfg, s, s.calls[t := s.calls[t].(dialling := true)], s.spent, s.reuses);
  }

  lemma PopLastKeepsInv(cfg: Config, s: State, t: nat)
    requires Inv(cfg, s) && t in s.calls && !s.calls[t].dialling && At(s.held, Checking(t)) == []
    requires At(s.held, Idle(s.calls[t].owner)) != []
    ensures var conns := At(s.held, Idle(s.calls[t].owner));
            Inv(cfg, Pass(s, Idle(s.calls[t].owner), conns[..|conns| - 1], Checking(t), conns[|conns| - 1]))
  {
    var p := s.calls[t].owner;
    var conns := At(s.held, Idle(p));
    assert InPlace(s, Idle(p), conns[|conns| - 1]);
    PassKeepsInv(cfg, s, Idle(p), conns[..|conns| - 1], Checking(t), conns[|conns| - 1]);
  }

  lemma PopKeepsInv(cfg: Config, s: State, t: nat)
    requires Inv(cfg, s)
    ensures Inv(cfg, Next(cfg, s, Pop(t)))
  {
    if t in s.calls && !s.calls[t].dialling && At(s.held, Checking(t)) == [] {
      if At(s.held, Idle(s.calls[t].owner)) == [] {
        PopEmptyKeepsInv(cfg, s, t);
      } else {
        PopLastKeepsInv(cfg, s, t);
      }
    }
  }

  lemma CloseKeepsInv(cfg: Config, s: State, from: Place)
    requires Inv(cfg, s) && |At(s.held, from)| == 1 && from != Closed
    ensures Inv(cfg, Pass(s, from, [], Closed, At(s.held, from)[0]))
  {
    assert InPlace(s, from, At(s.held, from)[0]);
    PassKeepsInv(cfg, s, from, [], Closed, At(s.held, from)[0]);
  }

  lemma GrantKeepsTidy(cfg: Config, s: State, t: nat, l: nat)
    requires Tidy(cfg, s) && At(s.held, Checking(t)) != [] && l in s.spent
    requires At(s.held, Leased(l)) == At(s.held, Returning(l)) == []
    ensures Tidy(cfg, Pass(s, Checking(t), [], Leased(l), At(s.held, Checking(t))[0]).(calls := s.calls - {t}))
  {
    var c := At(s.held, Checking(t))[0];
    assert InPlace(s, Checking(t), c);
    PassKeepsTidy(cfg, s, Checking(t), [], Leased(l), c);
    BooksKeepTidy(cfg, Pass(s, Checking(t), [], Leased(l), c), s.calls - {t}, s.spent, s.reuses);
  }

  lemma GrantKeepsInv(cfg: Config, s: State, t: nat, l: nat, alive: Option<set<nat>>)
    requires Inv(cfg, s)
    ensures Inv(cfg, Next(cfg, s, Grant(t, l, alive)))
  {
    var c := At(s.held, Checking(t));
    if t in s.calls && c != [] && l !in s.spent && Usable(cfg, c[0], s.calls[t].now, alive) {
      assert InPlace(s, Checking(t), c[0]);
      var s1 := s.(spent := s.spent + {l}, reuses := s.reuses + {Reuse(c[0], s.calls[t])});
      BooksKeepInv(cfg, s, s.calls, s1.spent, s1.reuses);
      PassExactlyOnce(s, Checking(t), [], Leased(l), c[0]);
      GrantKeepsTidy(cfg, s1, t, l);
    }
  }

  lemma DialStepKeepsInv(cfg: Config, s: State, t: nat, l: nat, id: nat, expiresAt: int)
    requires Inv(cfg, s)
    ensures Inv(cfg, Next(cfg, s, Dial(t, l, id, expiresAt)))
  {
    if t in s.calls && s.calls[t].dialling && l !in s.spent && id !in s.dialled {
      var c := Conn(id, s.calls[t].owner, expiresAt, UNKNOWN);
      BooksKeepInv(cfg, s, s.calls - {t}, s.spent + {l}, s.reuses);
      DialKeepsInv(cfg, s.(calls := s.calls - {t}, spent := s.spent + {l}), l, c);
    }
  }

  lemma ReleaseKeepsInv(cfg: Config, s: State, l: nat, now: int)
    requires Inv(cfg, s)
    ensures Inv(cfg, Next(cfg, s, Release(l, now)))
  {
    var c := At(s.held, Leased(l));
    if c != [] {
      if Expired(cfg, c[0], now) {
        CloseKeepsInv(cfg, s, Leased(l));
      } else {
        assert InPlace(s, Leased(l), c[0]);
        PassKeepsInv(cfg, s, Leased(l), [], Returning(l), c[0].(idleAt := now));
      }
    }
  }

  lemma SettleKeepsInv(cfg: Config, s: State, l: nat)
    requires Inv(cfg, s)
    ensures Inv(cfg, Next(cfg, s, Settle(l)))
  {
    var c := At(s.held, Returning(l));
    if c != [] {
      if HasRoom(cfg, At(s.held, Idle(c[0].owner))) {
        assert InPlace(s, Returning(l), c[0]);
        PassKeepsInv(cfg, s, Returning(l), [], Idle(c[0].owner), c[0]);
      } else {
        CloseKeepsInv(cfg, s, Returning(l));
      }
    }
  }

  lemma TeardownKeepsInv(cfg: Config, s: State, b: nat, p: Principal)
    requires Inv(cfg, s)
    ensures Inv(cfg, Next(cfg, s, Teardown(b, p)))
  {
    var conns := At(s.held, Dying(b, p));
    if conns != [] {
      assert InPlace(s, Dying(b, p), conns[0]);
      PassKeepsInv(cfg, s, Dying(b, p), conns[1..], Closed, conns[0]);
    }
  }

  lemma ReapKeepsInv(cfg: Config, s: State, b: nat, now: int)
    requires Inv(cfg, s) && b !in s.spent
    ensures Inv(cfg, Next(cfg, s, Reap(b, now)))
  {
    forall p ensures Splits(At(s.held, Idle(p)), Fresh(cfg, At(s.held, Idle(p)), now), Dead(cfg, At(s.held, Idle(p)), now)) {
      ViewAt(s.held, Idle(p));
      ReapSplits(cfg, At(s.held, Idle(p)), now);
    }
    SweepKeepsInv(cfg, s, b, conns => Fresh(cfg, conns, now), conns => Dead(cfg, conns, now));
  }

  lemma CloseAllKeepsInv(cfg: Config, s: State, b: nat)
    requires Inv(cfg, s) && b !in s.spent
    ensures Inv(cfg, Next(cfg, s, CloseAll(b)))
  {
    forall p ensures NoDuplicates(Ids(At(s.held, Idle(p)))) {
      ViewAt(s.held, Idle(p));
    }
    SweepKeepsInv(cfg, s, b, conns => [], conns => conns);
  }

  lemma SweepStepKeepsInv(cfg: Config, s: State, step: Step)
    requires Inv(cfg, s) && (step.Reap? || step.CloseAll?)
    ensures Inv(cfg, Next(cfg, s, step))
  {
    match step
    case Reap(b, now) =>
      if b !in s.spent {
        ReapKeepsInv(cfg, s, b, now);
      }
    case CloseAll(b) =>
      if b !in s.spent {
        CloseAllKeepsInv(cfg, s, b);
      }
  }

  lemma StepKeepsInv(cfg: Config, s: State, step: Step)
    requires Inv(cfg, s)
    ensures Inv(cfg, Next(cfg, s, step))
  {
    match step
    case Enter(t, p, now) =>
      if t !in s.calls && At(s.held, Checking(t)) == [] {
        BooksKeepInv(cfg, s, s.calls[t := Call(p, now, false)], s.spent, s.reuses);
      }
    case Pop(t) => PopKeepsInv(cfg, s, t);
    case Reject(t, alive) =>
      if At(s.held, Checking(t)) != [] {
        CloseKeepsInv(cfg, s, Checking(t));
      }
    case Grant(t, l, alive) => GrantKeepsInv(cfg, s, t, l, alive);
    case Dial(t, l, id, expiresAt) => DialStepKeepsInv(cfg, s, t, l, id, expiresAt);
    case DialFailed(t) =>
      if t in s.calls && s.calls[t].dialling {
        BooksKeepInv(cfg, s, s.calls - {t}, s.spent, s.reuses);
      }
    case Release(l, now) => ReleaseKeepsInv(cfg, s, l, now);
    case Settle(l) => SettleKeepsInv(cfg, s, l);
    case Reap(_, _) => SweepStepKeepsInv(cfg, s, step);
    case CloseAll(_) => SweepStepKeepsInv(cfg, s, step);
    case Teardown(b, p) => TeardownKeepsInv(cfg, s, b, p);
  }

  function Run(cfg: Config, s: State, steps: seq<Step>): State {
    if steps == [] then s else Next(cfg, Run(cfg, s, steps[..|steps| - 1]), steps[|steps| - 1])
  }

  lemma {:induction false} RunKeepsInv(cfg: Config, steps: seq<Step>)
    ensures Inv(cfg, Run(cfg, INITIAL, steps))
  {
    if steps != [] {
      RunKeepsInv(cfg, steps[..|steps| - 1]);
      StepKeepsInv(cfg, Run(cfg, INITIAL, steps[..|steps| - 1]), steps[|steps| - 1]);
    }
  }

  ghost predicate HeldAt(s: State, h: Place, id: nat) { id in Ids(At(s.held, h)) }

  /** Whatever the interleaving: every dialled connection is at exactly one place, and is closed
      at most once. */
  lemma EveryConnectionInOnePlace(cfg: Config, steps: seq<Step>, id: nat)
    ensures var s := Run(cfg, INITIAL, steps);
            && (id in s.dialled <==> exists h: Place :: HeldAt(s, h, id))
            && (forall h: Place, k: Place :: HeldAt(s, h, id) && HeldAt(s, k, id) ==> h == k)
            && NoDuplicates(Ids(At(s.held, Closed)))
  {
    RunKeepsInv(cfg, steps);
    var s := Run(cfg, INITIAL, steps);
    forall h: Place ensures At(View(s.held), h) == Ids(At(s.held, h)) {
      ViewAt(s.held, h);
    }
    if id in s.dialled {
      var h: Place :| id in At(View(s.held), h);
      assert HeldAt(s, h, id);
    }
  }

  /** Whatever the interleaving: a connection is parked, checked and swept only under the principal
      it was dialled for, no principal parks more than a positive maxIdle, and every connection
      reused belongs to the caller, had more than skew left and had not idled past a positive
      idleTimeout when the call that got it read the clock. */
  lemma OwnersAndLimitsHold(cfg: Config, steps: seq<Step>, h: Place)
    ensures var s := Run(cfg, INITIAL, steps);
            && (forall i :: 0 <= i < |At(s.held, h)| ==>
                  var c := At(s.held, h)[i];
                  && c.id in s.dialled && c.owner == s.dialled[c.id].owner && c.expiresAt == s.dialled[c.id].expiresAt
                  && (h.Idle? || h.Dying? ==> c.owner == h.owner))
            && (h.Idle? && cfg.maxIdle > 0 ==> |At(s.held, h)| <= cfg.maxIdle)
    ensures forall r :: r in Run(cfg, INITIAL, steps).reuses ==>
              && r.conn.owner == r.call.owner
              && r.conn.expiresAt != UNKNOWN && r.conn.expiresAt - r.call.now > cfg.skew
              && (cfg.idleTimeout > 0 ==> r.call.now - r.conn.idleAt <= cfg.idleTimeout)
  {
    RunKeepsInv(cfg, steps);
    var s := Run(cfg, INITIAL, steps);
    assert forall i :: 0 <= i < |At(s.held, h)| ==> InPlace(s, h, At(s.held, h)[i]);
  }

  /** A lease is only good once: when it has given its connection back, no later step fills
      it again, so closing it a second time changes nothing. */
  lemma {:induction false} SecondCloseChangesNothing(cfg: Config, s: State, l: nat, now: int, between: seq<Step>, later: int)
    requires Inv(cfg, s) && l in s.spent
    ensures var s' := Run(cfg, Next(cfg, s, Release(l, now)), between);
            Next(cfg, s', Release(l, later)) == s'
  {
    StepKeepsInv(cfg, s, Release(l, now));
    SpentStaysEmpty(cfg, Next(cfg, s, Release(l, now)), l, between);
  }

  lemma {:induction false} SpentStaysEmpty(cfg: Config, s: State, l: nat, steps: seq<Step>)
    requires Inv(cfg, s) && l in s.spent && At(s.held, Leased(l)) == []
    ensures var s' := Run(cfg, s, steps);
            Inv(cfg, s') && l in s'.spent && At(s'.held, Leased(l)) == []
  {
    if steps != [] {
      var init, step := Run(cfg, s, steps[..|steps| - 1]), steps[|steps| - 1];
      SpentStaysEmpty(cfg, s, l, steps[..|steps| - 1]);
      StepKeepsInv(cfg, init, step);
      NotRefilled(cfg, init, l, step);
    }
  }

  lemma NotRefilled(cfg: Config, s: State, l: nat, step: Step)
    requires Inv(cfg, s) && l in s.spent && At(s.held, Leased(l)) == []
    ensures l in Next(cfg, s, step).spent && At(Next(cfg, s, step).held, Leased(l)) == []
  {
    match step
    case Reap(b, now) => NotRefilledBySweep(s, l, b, conns => Fresh(cfg, conns, now), conns => Dead(cfg, conns, now));
    case CloseAll(b) => NotRefilledBySweep(s, l, b, conns => [], conns => conns);
    case Grant(_, _, _) => NotRefilledByGet(cfg, s, l, step);
    case Dial(_, _, _, _) => NotRefilledByGet(cfg, s, l, step);
    case _ => NotRefilledByOther(cfg, s, l, step);
  }

  lemma NotRefilledByGet(cfg: Config, s: State, l: nat, step: Step)
    requires (step.Grant? || step.Dial?) && l in s.spent && At(s.held, Leased(l)) == []
    ensures l in Next(cfg, s, step).spent && At(Next(cfg, s, step).held, Leased(l)) == []
  {
  }

  lemma NotRefilledByOther(cfg: Config, s: State, l: nat, step: Step)
    requires !step.Grant? && !step.Dial? && !step.Reap? && !step.CloseAll?
    requires l in s.spent && At(s.held, Leased(l)) == []
    ensures l in Next(cfg, s, step).spent && At(Next(cfg, s, step).held, Leased(l)) == []
  {
  }

  lemma NotRefilledBySweep(s: State, l: nat, batch: nat, stays: seq<Conn> -> seq<Conn>, goes: seq<Conn> -> seq<Conn>)
    requires l in s.spent && At(s.held, Leased(l)) == []
    ensures l in SweepIdle(s, batch, stays, goes).spent && At(SweepIdle(s, batch, stays, goes).held, Leased(l)) == []
  {
  }
}
