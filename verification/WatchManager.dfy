/** internal/notify/manager.go: at most one registered watch per principal, started by a
    subscription, replaced by the next one, reaped when nothing is subscribed. */
module WatchManager {
  import opened Wrappers
  import opened Sequences
  import opened Custody

  // ---- Building a watch ----

  /** What a Builder answers for one resource: a failure, not served, or a watch with the expiry
      of its token (None is the zero time). */
  datatype Built = Failed | NotServed | Serves(expiresAt: Option<int>)

  function Earlier(a: Option<int>, b: Option<int>): Option<int> {
    if a.None? then b
    else if b.None? then a
    else if b.value < a.value then b
    else a
  }

  function Expiries(builds: seq<Built>): seq<int> {
    Collect(builds, (b: Built) => if b.Serves? then b.expiresAt else None)
  }

  function Started(builds: seq<Built>): nat {
    |Collect(builds, (b: Built) => if b.Serves? then Some(b) else None)|
  }

  ghost predicate IsMinimum(m: Option<int>, xs: seq<int>) {
    if xs == [] then m.None? else m.Some? && m.value in xs && forall x :: x in xs ==> m.value <= x
  }

  lemma MinimumExtends(m: Option<int>, xs: seq<int>, b: Option<int>)
    requires IsMinimum(m, xs)
    ensures IsMinimum(Earlier(m, b), xs + (if b.Some? then [b.value] else []))
  {
  }

  datatype Registered = Registered(watch: nat, started: nat, earliest: Option<int>)

  class Manager {
    var watches: map<string, Registered>
    /** The watches handed to teardown, in order. */
    var torn: seq<nat>

    constructor ()
      ensures watches == map[] && torn == []
    {
      watches, torn := map[], [];
    }

    /** The loop over the builders: how many loops started, and the soonest expiry. */
    static method StartLoops(builds: seq<Built>) returns (started: nat, earliest: Option<int>)
      ensures started == Started(builds)
      ensures IsMinimum(earliest, Expiries(builds))
    {
      started, earliest := 0, None;
      for i := 0 to |builds|
        invariant started == Started(builds[..i])
        invariant IsMinimum(earliest, Expiries(builds[..i]))
      {
        assert builds[..i + 1] == builds[..i] + [builds[i]];
        CollectAppend(builds[..i], [builds[i]], (b: Built) => if b.Serves? then Some(b) else None);
        CollectAppend(builds[..i], [builds[i]], (b: Built) => if b.Serves? then b.expiresAt else None);
        if builds[i].Serves? {
          MinimumExtends(earliest, Expiries(builds[..i]), builds[i].expiresAt);
          if builds[i].expiresAt.Some? {
            earliest := Earlier(earliest, builds[i].expiresAt);
          }
          started := started + 1;
        }
      }
      assert builds[..|builds|] == builds;
    }

    method Swap(owner: string, pw: Registered)
      modifies this
      ensures watches == old(watches)[owner := pw]
      ensures torn == old(torn) + if owner in old(watches) then [old(watches)[owner].watch] else []
    {
      var previous := if owner in watches then Some(watches[owner]) else None;
      watches := watches[owner := pw];
      if previous.Some? {
        torn := torn + [previous.value.watch];
      }
    }

    /** builds lists what the builders answer for the resources subscribed to. */
    method OnSubscribe(owner: string, token: string, builds: seq<Built>, id: nat)
      modifies this
      ensures owner == "" || token == "" || Started(builds) == 0 ==> watches == old(watches) && torn == old(torn)
      ensures owner != "" && token != "" && Started(builds) > 0 ==>
                && owner in watches && watches == old(watches)[owner := watches[owner]]
                && watches[owner].watch == id && watches[owner].started == Started(builds)
                && IsMinimum(watches[owner].earliest, Expiries(builds))
                && torn == old(torn) + if owner in old(watches) then [old(watches)[owner].watch] else []
    {
      if owner == "" || token == "" || builds == [] {
        return;
      }
      var started, earliest := StartLoops(builds);
      if started == 0 {
        return;
      }
      Swap(owner, Registered(id, started, earliest));
    }

    method ReapOwner(owner: string, subscribed: bool)
      modifies this
      ensures watches == if subscribed then old(watches) else old(watches) - {owner}
      ensures torn == old(torn) + if !subscribed && owner in old(watches) then [old(watches)[owner].watch] else []
    {
      if subscribed {
        return;
      }
      var pw := if owner in watches then Some(watches[owner]) else None;
      watches := watches - {owner};
      if pw.Some? {
        torn := torn + [pw.value.watch];
      }
    }
  }

  // ---- The registry under interleaving ----

  /** Where a watch is: being built by a call, registered for a principal, in the hands of a call
      that took it out of the map, handed to teardown, or dropped unstarted. */
  datatype Place = Building(call: nat) | Entry(owner: string) | InHand(holder: nat) | Torn | Dropped

  datatype Watch = Watch(owner: string, started: nat, earliest: Option<int>, expiries: seq<int>)

  datatype State = State(held: map<Place, seq<nat>>, made: map<nat, Watch>)

  /** One critical section, or one local action, of OnSubscribe (call t) or Reap (call t). */
  datatype Step =
    | Begin(t: nat, watch: nat, owner: string)
    | Start(t: nat, expiresAt: Option<int>)
    | Drop(t: nat)
    | SwapIn(t: nat)
    | TakeOut(t: nat, owner: string)
    | Teardown(t: nat)

  function Only(s: State, h: Place): Option<nat> {
    if |At(s.held, h)| == 1 then Some(At(s.held, h)[0]) else None
  }

  predicate Enabled(s: State, step: Step) {
    match step
    case Begin(t, w, owner) => w !in s.made && At(s.held, Building(t)) == []
    case Start(t, _) => Only(s, Building(t)).Some? && Only(s, Building(t)).value in s.made
    case Drop(t) => Only(s, Building(t)).Some? && Only(s, Building(t)).value in s.made && s.made[Only(s, Building(t)).value].started == 0
    case SwapIn(t) => Only(s, Building(t)).Some? && Only(s, Building(t)).value in s.made
                      && s.made[Only(s, Building(t)).value].started > 0 && At(s.held, InHand(t)) == []
    case TakeOut(t, _) => At(s.held, InHand(t)) == []
    case Teardown(t) => Only(s, InHand(t)).Some?
  }

  /** Everything at from goes to to. */
  function Move(s: State, from: Place, to: Place): State {
    s.(held := s.held[from := []][to := At(s.held, to) + At(s.held, from)])
  }

  function Next(s: State, step: Step): State
    requires Enabled(s, step)
  {
    match step
    case Begin(t, w, owner) => State(s.held[Building(t) := [w]], s.made[w := Watch(owner, 0, None, [])])
    case Start(t, expiresAt) =>
      var w := Only(s, Building(t)).value;
      var was := s.made[w];
      s.(made := s.made[w := was.(started := was.started + 1, earliest := Earlier(was.earliest, expiresAt),
                                  expiries := was.expiries + if expiresAt.Some? then [expiresAt.value] else [])])
    case Drop(t) => Move(s, Building(t), Dropped)
    case SwapIn(t) =>
      var owner := s.made[Only(s, Building(t)).value].owner;
      Move(Move(s, Entry(owner), InHand(t)), Building(t), Entry(owner))
    case TakeOut(t, owner) => Move(s, Entry(owner), InHand(t))
    case Teardown(t) => Move(s, InHand(t), Torn)
  }

  ghost predicate InPlace(s: State, h: Place, w: nat) {
    && w in s.made
    && match h
       case Building(_) => true
       case Entry(owner) => s.made[w].owner == owner && s.made[w].started > 0
       case InHand(_) => s.made[w].started > 0
       case Torn => s.made[w].started > 0
       case Dropped => s.made[w].started == 0
  }

  ghost predicate Inv(s: State) {
    && ExactlyOnce(s.held, s.made.Keys)
    && (forall h: Place, w :: w in At(s.held, h) ==> InPlace(s, h, w))
    && (forall h: Place :: !h.Torn? && !h.Dropped? ==> |At(s.held, h)| <= 1)
    && (forall w :: w in s.made ==> IsMinimum(s.made[w].earliest, s.made[w].expiries))
  }

  lemma MovedAt(s: State, from: Place, to: Place, h: Place)
    requires from != to
    ensures At(Move(s, from, to).held, h) ==
            if h == to then At(s.held, to) + At(s.held, from) else if h == from then [] else At(s.held, h)
  {
  }

  lemma MoveKeepsCustody(s: State, from: Place, to: Place)
    requires ExactlyOnce(s.held, s.made.Keys) && from != to
    ensures ExactlyOnce(Move(s, from, to).held, s.made.Keys)
  {
    var a, b := At(s.held, to), At(s.held, from);
    assert forall w :: w in b ==> w !in a;
    ConcatNoDuplicates(a, b);
    Hand(s.held, s.made.Keys, from, [], to, a + b);
  }

  lemma MovedInPlace(s: State, from: Place, to: Place, h: Place, w: nat)
    requires from != to && w in At(Move(s, from, to).held, h)
    requires forall k: Place, x :: x in At(s.held, k) ==> InPlace(s, k, x)
    requires forall x :: x in At(s.held, from) ==> InPlace(s, to, x)
    ensures InPlace(Move(s, from, to), h, w)
  {
    MovedAt(s, from, to, h);
    assert InPlace(s, h, w);
  }

  lemma MoveKeepsInv(s: State, from: Place, to: Place)
    requires Inv(s) && from != to
    requires forall w :: w in At(s.held, from) ==> InPlace(s, to, w)
    requires to.Torn? || to.Dropped? || At(s.held, to) == []
    requires !from.Torn? && !from.Dropped?
    ensures Inv(Move(s, from, to))
  {
    MoveKeepsCustody(s, from, to);
    var s' := Move(s, from, to);
    forall h: Place, w | w in At(s'.held, h) ensures InPlace(s', h, w) {
      MovedInPlace(s, from, to, h, w);
    }
    forall h: Place | !h.Torn? && !h.Dropped? ensures |At(s'.held, h)| <= 1 {
      MovedAt(s, from, to, h);
    }
  }

  lemma SwapKeepsInv(s: State, t: nat)
    requires Inv(s) && Enabled(s, SwapIn(t))
    ensures Inv(Next(s, SwapIn(t)))
  {
    var owner := s.made[Only(s, Building(t)).value].owner;
    MoveKeepsInv(s, Entry(owner), InHand(t));
    var taken := Move(s, Entry(owner), InHand(t));
    MovedAt(s, Entry(owner), InHand(t), Building(t));
    MovedAt(s, Entry(owner), InHand(t), Entry(owner));
    MoveKeepsInv(taken, Building(t), Entry(owner));
  }

  lemma BegunInPlace(s: State, t: nat, w: nat, owner: string, h: Place, x: nat)
    requires Inv(s) && Enabled(s, Begin(t, w, owner))
    requires x in At(Next(s, Begin(t, w, owner)).held, h)
    ensures InPlace(Next(s, Begin(t, w, owner)), h, x)
  {
    if h != Building(t) {
      assert InPlace(s, h, x);
    }
  }

  lemma BeginKeepsCustody(s: State, t: nat, w: nat, owner: string)
    requires Inv(s) && Enabled(s, Begin(t, w, owner))
    ensures ExactlyOnce(Next(s, Begin(t, w, owner)).held, Next(s, Begin(t, w, owner)).made.Keys)
  {
    Enter(s.held, s.made.Keys, Building(t), w);
    assert At(s.held, Building(t)) + [w] == [w];
    assert Next(s, Begin(t, w, owner)).made.Keys == s.made.Keys + {w};
  }

  lemma BeginKeepsInv(s: State, t: nat, w: nat, owner: string)
    requires Inv(s) && Enabled(s, Begin(t, w, owner))
    ensures Inv(Next(s, Begin(t, w, owner)))
  {
    BeginKeepsCustody(s, t, w, owner);
    var s' := Next(s, Begin(t, w, owner));
    forall h: Place, x | x in At(s'.held, h) ensures InPlace(s', h, x) {
      BegunInPlace(s, t, w, owner, h, x);
    }
  }

  lemma StartKeepsInv(s: State, t: nat, expiresAt: Option<int>)
    requires Inv(s) && Enabled(s, Start(t, expiresAt))
    ensures Inv(Next(s, Start(t, expiresAt)))
  {
    var s' := Next(s, Start(t, expiresAt));
    var w := Only(s, Building(t)).value;
    assert w in At(s.held, Building(t));
    MinimumExtends(s.made[w].earliest, s.made[w].expiries, expiresAt);
    assert s'.made.Keys == s.made.Keys;
    forall h: Place, x | x in At(s'.held, h) ensures InPlace(s', h, x) {
      assert InPlace(s, h, x);
      if x == w {
        assert h == Building(t);
      }
    }
  }

  lemma StepKeepsInv(s: State, step: Step)
    requires Inv(s) && Enabled(s, step)
    ensures Inv(Next(s, step))
  {
    match step
    case Begin(t, w, owner) => BeginKeepsInv(s, t, w, owner);
    case Start(t, expiresAt) => StartKeepsInv(s, t, expiresAt);
    case Drop(t) => MoveKeepsInv(s, Building(t), Dropped);
    case SwapIn(t) => SwapKeepsInv(s, t);
    case TakeOut(t, owner) => MoveKeepsInv(s, Entry(owner), InHand(t));
    case Teardown(t) => MoveKeepsInv(s, InHand(t), Torn);
  }

  predicate Runs(s: State, steps: seq<Step>)
    decreases |steps|
  {
    steps == [] || (Enabled(s, steps[0]) && Runs(Next(s, steps[0]), steps[1..]))
  }

  function After(s: State, steps: seq<Step>): State
    requires Runs(s, steps)
    decreases |steps|
  {
    if steps == [] then s else After(Next(s, steps[0]), steps[1..])
  }

  lemma {:induction false} RunKeepsInv(s: State, steps: seq<Step>)
    requires Inv(s) && Runs(s, steps)
    ensures Inv(After(s, steps))
    decreases |steps|
  {
    if steps != [] {
      StepKeepsInv(s, steps[0]);
      RunKeepsInv(Next(s, steps[0]), steps[1..]);
    }
  }

  ghost predicate SomewhereLive(s: State, w: nat)
    requires w in s.made
  {
    || (exists t :: At(s.held, Building(t)) == [w])
    || At(s.held, Entry(s.made[w].owner)) == [w]
    || (exists t :: At(s.held, InHand(t)) == [w])
  }

  lemma OwnedOnce(s: State, w: nat)
    requires Inv(s) && w in s.made && s.made[w].started > 0
    ensures SomewhereLive(s, w) <==> w !in At(s.held, Torn)
    ensures forall owner :: w in At(s.held, Entry(owner)) ==> owner == s.made[w].owner
  {
    var h: Place :| w in At(s.held, h);
    assert InPlace(s, h, w);
    assert h.Torn? || At(s.held, h) == [w];
    assert forall k: Place :: At(s.held, k) == [w] ==> w in At(s.held, k) && k == h;
    forall owner | w in At(s.held, Entry(owner)) ensures owner == s.made[w].owner {
      assert InPlace(s, Entry(owner), w);
    }
  }

  lemma ReachedKeepsInv(steps: seq<Step>)
    requires Runs(State(map[], map[]), steps)
    ensures Inv(After(State(map[], map[]), steps))
  {
    var s0: State := State(map[], map[]);
    assert forall h: Place :: At(s0.held, h) == [];
    RunKeepsInv(s0, steps);
  }

  /** In every interleaving of OnSubscribe and Reap, a started watch is being built, is its own
      principal's entry, is on its way to teardown, or was handed to teardown, once; and in no
      two of these. */
  lemma EveryStartedWatchOwnedOnce(steps: seq<Step>, w: nat)
    requires Runs(State(map[], map[]), steps)
    requires var s := After(State(map[], map[]), steps); w in s.made && s.made[w].started > 0
    ensures var s := After(State(map[], map[]), steps);
            && w in s.made && (SomewhereLive(s, w) <==> w !in At(s.held, Torn))
            && NoDuplicates(At(s.held, Torn))
            && (forall h: Place, k: Place :: w in At(s.held, h) && w in At(s.held, k) ==> h == k)
            && (forall owner :: |At(s.held, Entry(owner))| <= 1)
            && (forall owner :: w in At(s.held, Entry(owner)) ==> owner == s.made[w].owner)
  {
    ReachedKeepsInv(steps);
    OwnedOnce(After(State(map[], map[]), steps), w);
  }

  // ---- Lifecycle notifications ----

  datatype Event = ReauthorizationRequired | Missed

  datatype Clock = Fresh | UntilReauth | UntilExpiry | Ended

  /** The lifecycle goroutine of one watch: what it emitted and when, and whether its context
      was cancelled. */
  datatype Lifecycle = Lifecycle(expiresAt: int, lead: nat, phase: Clock, stale: bool, cancelled: bool, now: int, emitted: seq<(Event, int)>)

  datatype Tick = Pass(span: nat) | CancelContext | Check | Wake | GiveUp

  predicate CanTick(l: Lifecycle, tick: Tick) {
    match tick
    case Pass(_) => true
    case CancelContext => true
    case Check => l.phase.Fresh?
    case Wake => (l.phase.UntilReauth? && l.now >= l.expiresAt - l.lead) || (l.phase.UntilExpiry? && l.now >= l.expiresAt)
    case GiveUp => (l.phase.UntilReauth? || l.phase.UntilExpiry?) && l.cancelled
  }

  function Ticked(l: Lifecycle, tick: Tick): Lifecycle
    requires CanTick(l, tick)
  {
    match tick
    case Pass(span) => l.(now := l.now + span)
    case CancelContext => l.(cancelled := true)
    case Check =>
      if l.expiresAt > l.now then l.(phase := UntilReauth)
      else l.(phase := Ended, stale := true, emitted := if l.cancelled then [] else [(Missed, l.now)])
    case Wake =>
      if l.phase.UntilReauth? then l.(phase := UntilExpiry, emitted := l.emitted + [(ReauthorizationRequired, l.now)])
      else l.(phase := Ended, emitted := l.emitted + [(Missed, l.now)])
    case GiveUp => l.(phase := Ended)
  }

  function Events(l: Lifecycle): seq<Event> { seq(|l.emitted|, i requires 0 <= i < |l.emitted| => l.emitted[i].0) }

  /** Which events can have been emitted, and not before their time. */
  ghost predicate InOrder(l: Lifecycle) {
    && (if l.stale then Events(l) <= [Missed] else Events(l) <= [ReauthorizationRequired, Missed])
    && (l.phase.Fresh? || l.phase.UntilReauth? ==> l.emitted == [] && !l.stale)
    && (l.phase.UntilExpiry? ==> Events(l) == [ReauthorizationRequired] && !l.stale)
    && forall i :: 0 <= i < |l.emitted| ==>
         l.emitted[i].1 <= l.now &&
         match l.emitted[i].0
         case ReauthorizationRequired => l.emitted[i].1 >= l.expiresAt - l.lead
         case Missed => l.emitted[i].1 >= l.expiresAt
  }

  lemma TickKeepsOrder(l: Lifecycle, tick: Tick)
    requires InOrder(l) && CanTick(l, tick)
    ensures InOrder(Ticked(l, tick)) && Ticked(l, tick).expiresAt == l.expiresAt
  {
    var l' := Ticked(l, tick);
    if tick.Wake? {
      assert Events(l') == Events(l) + [if l.phase.UntilReauth? then ReauthorizationRequired else Missed];
    } else if tick.Check? {
    } else {
      assert Events(l') == Events(l);
    }
  }

  predicate Ticks(l: Lifecycle, ticks: seq<Tick>)
    decreases |ticks|
  {
    ticks == [] || (CanTick(l, ticks[0]) && Ticks(Ticked(l, ticks[0]), ticks[1..]))
  }

  function AfterTicks(l: Lifecycle, ticks: seq<Tick>): Lifecycle
    requires Ticks(l, ticks)
    decreases |ticks|
  {
    if ticks == [] then l else AfterTicks(Ticked(l, ticks[0]), ticks[1..])
  }

  /** The events of a watch form a prefix of reauthorizationRequired, missed, or of missed alone
      when it was scheduled already expired; missed never comes before the expiry it is keyed to. */
  lemma {:induction false} LifecycleInOrder(l: Lifecycle, ticks: seq<Tick>)
    requires InOrder(l) && Ticks(l, ticks)
    ensures InOrder(AfterTicks(l, ticks)) && AfterTicks(l, ticks).expiresAt == l.expiresAt
    decreases |ticks|
  {
    if ticks != [] {
      TickKeepsOrder(l, ticks[0]);
      LifecycleInOrder(Ticked(l, ticks[0]), ticks[1..]);
    }
  }

  /** For a watch of the registry: missed is not emitted before the soonest expiry of its loops. */
  lemma MissedNotBeforeSoonest(expiries: seq<int>, earliest: Option<int>, lead: nat, now: int, ticks: seq<Tick>, i: nat)
    requires expiries != [] && IsMinimum(earliest, expiries)
    requires Ticks(Lifecycle(earliest.value, lead, Fresh, false, false, now, []), ticks)
    requires var l := AfterTicks(Lifecycle(earliest.value, lead, Fresh, false, false, now, []), ticks);
             i < |l.emitted| && l.emitted[i].0 == Missed
    ensures var l := AfterTicks(Lifecycle(earliest.value, lead, Fresh, false, false, now, []), ticks);
            exists x :: x in expiries && (forall y :: y in expiries ==> x <= y) && l.emitted[i].1 >= x
  {
    LifecycleInOrder(Lifecycle(earliest.value, lead, Fresh, false, false, now, []), ticks);
  }
}
