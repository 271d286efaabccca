/** The manager object against the registry machine: each method of internal/notify/manager.go, run
    alone, is a run of the machine's critical sections on what the object shows. */
module ManagerRefinement {
  import opened Wrappers
  import opened Sequences
  import opened Custody
  import opened WatchManager

  /** The entries and the torn watches of the state, with what the builders answered for them. */
  ghost predicate Matches(s: State, watches: map<string, Registered>, torn: seq<nat>) {
    && (forall owner :: At(s.held, Entry(owner)) == if owner in watches then [watches[owner].watch] else [])
    && At(s.held, Torn) == torn
    && (forall owner :: owner in watches ==> Registers(s, owner, watches[owner]))
  }

  ghost predicate Shows(s: State, mgr: Manager)
    reads mgr
  {
    Matches(s, mgr.watches, mgr.torn)
  }

  ghost predicate Registers(s: State, owner: string, r: Registered) {
    && r.watch in s.made && s.made[r.watch].owner == owner
    && s.made[r.watch].started == r.started && s.made[r.watch].earliest == r.earliest
  }

  lemma {:induction false} RunsAppend(s: State, a: seq<Step>, b: seq<Step>)
    requires Runs(s, a) && Runs(After(s, a), b)
    ensures Runs(s, a + b) && After(s, a + b) == After(After(s, a), b)
    decreases |a|
  {
    if a == [] {
      assert a + b == b;
    } else {
      assert (a + b)[1..] == a[1..] + b;
      RunsAppend(Next(s, a[0]), a[1..], b);
    }
  }

  lemma OneStep(s: State, step: Step)
    requires Enabled(s, step)
    ensures Runs(s, [step]) && After(s, [step]) == Next(s, step)
  {
    assert [step][1..] == [];
  }

  // ---- Taking an entry out ----

  /** Hands what call t took out of the map to teardown, when it took something. */
  function TeardownOf(t: nat, taken: bool): seq<Step> { if taken then [Teardown(t)] else [] }

  lemma TornDown(s: State, t: nat)
    requires |At(s.held, InHand(t))| <= 1
    ensures var steps := TeardownOf(t, At(s.held, InHand(t)) != []);
            && Runs(s, steps) && After(s, steps).made == s.made
            && forall h: Place :: At(After(s, steps).held, h) ==
                 if h == Torn then At(s.held, Torn) + At(s.held, InHand(t)) else if h == InHand(t) then [] else At(s.held, h)
  {
    if At(s.held, InHand(t)) != [] {
      OneStep(s, Teardown(t));
      forall h: Place ensures At(Move(s, InHand(t), Torn).held, h) ==
          if h == Torn then At(s.held, Torn) + At(s.held, InHand(t)) else if h == InHand(t) then [] else At(s.held, h) {
        MovedAt(s, InHand(t), Torn, h);
      }
    }
  }

  lemma TakenOut(s: State, t: nat, owner: string)
    requires At(s.held, InHand(t)) == []
    ensures Runs(s, [TakeOut(t, owner)]) && After(s, [TakeOut(t, owner)]).made == s.made
    ensures forall h: Place :: At(After(s, [TakeOut(t, owner)]).held, h) ==
              if h == InHand(t) then At(s.held, Entry(owner)) else if h == Entry(owner) then [] else At(s.held, h)
  {
    OneStep(s, TakeOut(t, owner));
    forall h: Place ensures At(Move(s, Entry(owner), InHand(t)).held, h) ==
        if h == InHand(t) then At(s.held, Entry(owner)) else if h == Entry(owner) then [] else At(s.held, h) {
      MovedAt(s, Entry(owner), InHand(t), h);
    }
  }

  function ReapSteps(t: nat, owner: string, watched: bool): seq<Step> { [TakeOut(t, owner)] + TeardownOf(t, watched) }

  lemma ReapRuns(s: State, t: nat, owner: string, watches: map<string, Registered>, torn: seq<nat>)
    requires Matches(s, watches, torn) && At(s.held, InHand(t)) == []
    ensures var steps := ReapSteps(t, owner, owner in watches);
            && Runs(s, steps) && At(After(s, steps).held, InHand(t)) == []
            && Matches(After(s, steps), watches - {owner}, torn + if owner in watches then [watches[owner].watch] else [])
  {
    TakenOut(s, t, owner);
    var taken := After(s, [TakeOut(t, owner)]);
    TornDown(taken, t);
    RunsAppend(s, [TakeOut(t, owner)], TeardownOf(t, owner in watches));
  }

  /** The delete section of Reap for one principal, and the teardown it starts. */
  method ReapOwner(mgr: Manager, owner: string, subscribed: bool, ghost s: State, ghost t: nat) returns (ghost steps: seq<Step>)
    requires Shows(s, mgr) && At(s.held, InHand(t)) == []
    modifies mgr
    ensures Runs(s, steps) && Shows(After(s, steps), mgr) && At(After(s, steps).held, InHand(t)) == []
    ensures steps == if subscribed then [] else ReapSteps(t, owner, owner in old(mgr.watches))
  {
    if subscribed {
      steps := [];
    } else {
      ReapRuns(s, t, owner, mgr.watches, mgr.torn);
      steps := ReapSteps(t, owner, owner in mgr.watches);
    }
    mgr.ReapOwner(owner, subscribed);
  }

  // ---- Building and swapping in ----

  /** One start for each builder that serves. */
  function Starts(t: nat, builds: seq<Built>): seq<Step> {
    if builds == [] then []
    else
      var last := builds[|builds| - 1];
      Starts(t, builds[..|builds| - 1]) + if last.Serves? then [Start(t, last.expiresAt)] else []
  }

  ghost predicate BuiltFrom(s: State, s': State, w: nat, owner: string, builds: seq<Built>) {
    && s'.held == s.held && w in s'.made
    && s'.made == s.made[w := s'.made[w]]
    && s'.made[w].owner == owner && s'.made[w].started == Started(builds)
    && s'.made[w].expiries == Expiries(builds) && IsMinimum(s'.made[w].earliest, Expiries(builds))
  }

  lemma OneMoreBuild(builds: seq<Built>, last: Built)
    ensures Started(builds + [last]) == Started(builds) + if last.Serves? then 1 else 0
    ensures Expiries(builds + [last]) == Expiries(builds) + if last.Serves? && last.expiresAt.Some? then [last.expiresAt.value] else []
  {
    CollectAppend(builds, [last], (b: Built) => if b.Serves? then Some(b) else None);
    CollectAppend(builds, [last], (b: Built) => if b.Serves? then b.expiresAt else None);
  }

  lemma {:induction false} StartsRun(s: State, t: nat, w: nat, owner: string, builds: seq<Built>)
    requires At(s.held, Building(t)) == [w] && w in s.made && s.made[w] == Watch(owner, 0, None, [])
    ensures Runs(s, Starts(t, builds)) && BuiltFrom(s, After(s, Starts(t, builds)), w, owner, builds)
  {
    if builds != [] {
      var init, last := builds[..|builds| - 1], builds[|builds| - 1];
      assert builds == init + [last];
      StartsRun(s, t, w, owner, init);
      OneMoreBuild(init, last);
      var mid := After(s, Starts(t, init));
      if last.Serves? {
        MinimumExtends(mid.made[w].earliest, Expiries(init), last.expiresAt);
        OneStep(mid, Start(t, last.expiresAt));
        RunsAppend(s, Starts(t, init), [Start(t, last.expiresAt)]);
      } else {
        assert Starts(t, builds) == Starts(t, init);
      }
    }
  }

  lemma MinimumUnique(a: Option<int>, b: Option<int>, xs: seq<int>)
    requires IsMinimum(a, xs) && IsMinimum(b, xs)
    ensures a == b
  {
    if xs != [] {
      assert a.value <= b.value <= a.value;
    }
  }

  lemma Begun(s: State, t: nat, w: nat, owner: string)
    requires w !in s.made && At(s.held, Building(t)) == []
    ensures Runs(s, [Begin(t, w, owner)])
    ensures var s' := After(s, [Begin(t, w, owner)]);
            && s'.made == s.made[w := Watch(owner, 0, None, [])]
            && forall h: Place :: At(s'.held, h) == if h == Building(t) then [w] else At(s.held, h)
  {
    OneStep(s, Begin(t, w, owner));
  }

  lemma SwappedIn(s: State, t: nat, w: nat)
    requires At(s.held, Building(t)) == [w] && w in s.made && s.made[w].started > 0 && At(s.held, InHand(t)) == []
    ensures var owner := s.made[w].owner; var s' := After(s, [SwapIn(t)]);
            && Runs(s, [SwapIn(t)]) && s'.made == s.made
            && forall h: Place :: At(s'.held, h) ==
                 if h == InHand(t) then At(s.held, Entry(owner)) else if h == Entry(owner) then [w]
                 else if h == Building(t) then [] else At(s.held, h)
  {
    var owner := s.made[w].owner;
    OneStep(s, SwapIn(t));
    var taken := Move(s, Entry(owner), InHand(t));
    forall h: Place ensures At(Move(taken, Building(t), Entry(owner)).held, h) ==
        if h == InHand(t) then At(s.held, Entry(owner)) else if h == Entry(owner) then [w]
        else if h == Building(t) then [] else At(s.held, h) {
      MovedAt(s, Entry(owner), InHand(t), h);
      MovedAt(s, Entry(owner), InHand(t), Building(t));
      MovedAt(s, Entry(owner), InHand(t), Entry(owner));
      MovedAt(taken, Building(t), Entry(owner), h);
    }
  }

  lemma DroppedUnstarted(s: State, t: nat, w: nat)
    requires At(s.held, Building(t)) == [w] && w in s.made && s.made[w].started == 0
    ensures Runs(s, [Drop(t)]) && After(s, [Drop(t)]).made == s.made
    ensures forall h: Place :: h != Building(t) && h != Dropped ==> At(After(s, [Drop(t)]).held, h) == At(s.held, h)
  {
    OneStep(s, Drop(t));
    forall h: Place | h != Building(t) && h != Dropped ensures At(Move(s, Building(t), Dropped).held, h) == At(s.held, h) {
      MovedAt(s, Building(t), Dropped, h);
    }
  }

  /** The steps of a call that has something to build. */
  function SubscribeSteps(t: nat, w: nat, owner: string, builds: seq<Built>, replaced: bool): seq<Step> {
    [Begin(t, w, owner)] + Starts(t, builds) +
    (if Started(builds) == 0 then [Drop(t)] else [SwapIn(t)] + TeardownOf(t, replaced))
  }

  /** What a call leaves: nothing new for the registry when no loop started, else the new entry, the
      one it replaced torn. */
  ghost predicate Subscribed(s: State, s': State, t: nat, w: nat, owner: string, builds: seq<Built>) {
    && (forall x :: x in s.made ==> x in s'.made && s'.made[x] == s.made[x])
    && (forall o :: At(s'.held, Entry(o)) == if o == owner && Started(builds) > 0 then [w] else At(s.held, Entry(o)))
    && At(s'.held, Torn) == At(s.held, Torn) + (if Started(builds) > 0 then At(s.held, Entry(owner)) else [])
    && w in s'.made && s'.made[w].owner == owner && s'.made[w].started == Started(builds)
    && IsMinimum(s'.made[w].earliest, Expiries(builds))
  }

  lemma SubscribeRuns(s: State, t: nat, w: nat, owner: string, builds: seq<Built>)
    requires w !in s.made && At(s.held, Building(t)) == [] && At(s.held, InHand(t)) == [] && |At(s.held, Entry(owner))| <= 1
    ensures var steps := SubscribeSteps(t, w, owner, builds, At(s.held, Entry(owner)) != []);
            Runs(s, steps) && Subscribed(s, After(s, steps), t, w, owner, builds)
  {
    Begun(s, t, w, owner);
    var begun := After(s, [Begin(t, w, owner)]);
    StartsRun(begun, t, w, owner, builds);
    var built := After(begun, Starts(t, builds));
    RunsAppend(s, [Begin(t, w, owner)], Starts(t, builds));
    var head := [Begin(t, w, owner)] + Starts(t, builds);
    if Started(builds) == 0 {
      DroppedUnstarted(built, t, w);
      RunsAppend(s, head, [Drop(t)]);
    } else {
      SwapRuns(built, t, w, owner);
      RunsAppend(s, head, [SwapIn(t)] + TeardownOf(t, At(s.held, Entry(owner)) != []));
    }
  }

  lemma SwapRuns(s: State, t: nat, w: nat, owner: string)
    requires At(s.held, Building(t)) == [w] && w in s.made && s.made[w].started > 0 && s.made[w].owner == owner
    requires At(s.held, InHand(t)) == [] && |At(s.held, Entry(owner))| <= 1
    ensures var steps := [SwapIn(t)] + TeardownOf(t, At(s.held, Entry(owner)) != []); var s' := After(s, steps);
            && Runs(s, steps) && s'.made == s.made
            && (forall o :: At(s'.held, Entry(o)) == if o == owner then [w] else At(s.held, Entry(o)))
            && At(s'.held, Torn) == At(s.held, Torn) + At(s.held, Entry(owner))
  {
    SwappedIn(s, t, w);
    var swapped := After(s, [SwapIn(t)]);
    TornDown(swapped, t);
    RunsAppend(s, [SwapIn(t)], TeardownOf(t, At(s.held, Entry(owner)) != []));
  }

  /** One subscription is a run of the machine: nothing for the calls that do nothing, else building,
      starting, and dropping or swapping in with the teardown of the watch replaced. */
  method OnSubscribe(mgr: Manager, owner: string, token: string, builds: seq<Built>, id: nat, ghost s: State, ghost t: nat)
    returns (ghost steps: seq<Step>)
    requires Shows(s, mgr) && id !in s.made && At(s.held, Building(t)) == [] && At(s.held, InHand(t)) == []
    modifies mgr
    ensures Runs(s, steps) && Shows(After(s, steps), mgr)
    ensures steps == if owner == "" || token == "" || builds == [] then []
                     else SubscribeSteps(t, id, owner, builds, owner in old(mgr.watches))
  {
    ghost var before, torn := mgr.watches, mgr.torn;
    mgr.OnSubscribe(owner, token, builds, id);
    steps := [];
    if owner != "" && token != "" && builds != [] {
      SubscribeRuns(s, t, id, owner, builds);
      steps := SubscribeSteps(t, id, owner, builds, owner in before);
      SubscribedMatches(s, After(s, steps), t, id, owner, builds, before, torn, mgr.watches, mgr.torn);
    }
  }

  lemma SubscribedMatches(s: State, s': State, t: nat, w: nat, owner: string, builds: seq<Built>,
                          before: map<string, Registered>, torn: seq<nat>, watches: map<string, Registered>, torn': seq<nat>)
    requires Matches(s, before, torn) && Subscribed(s, s', t, w, owner, builds)
    requires Started(builds) == 0 ==> watches == before && torn' == torn
    requires Started(builds) > 0 ==>
               && owner in watches && watches == before[owner := watches[owner]]
               && watches[owner].watch == w && watches[owner].started == Started(builds)
               && IsMinimum(watches[owner].earliest, Expiries(builds))
               && torn' == torn + if owner in before then [before[owner].watch] else []
    ensures Matches(s', watches, torn')
  {
    if Started(builds) > 0 {
      MinimumUnique(watches[owner].earliest, s'.made[w].earliest, Expiries(builds));
    }
    forall o | o in watches ensures Registers(s', o, watches[o]) {
      if o in before {
        assert Registers(s, o, before[o]);
      }
    }
  }
}
