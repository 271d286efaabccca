/** internal/itip/itip.go: ProcessRequest over a calendar store, and what any stream of
    REQUESTs leaves in it. */
module InviteStore {
  import opened Wrappers
  import opened Sequences
  import opened Invitations

  /** The optional ports of the backend. */
  datatype Ports = Ports(finder: bool, instanceWriter: bool)

  datatype State = State(resources: map<string, Event>, overrides: map<(string, int), Event>)

  datatype Call = Find | Update | Create | Override

  /** What the backend answers while one message is processed: the resource the Finder reports,
      the id and UID a create would get, and the calls that fail. */
  datatype Reply = Reply(found: Option<string>, id: string, minted: string, failing: set<Call>)

  datatype Delivery = Delivery(raw: Result<Invite, Error>, reply: Reply)

  ghost predicate Has(resources: map<string, Event>, uid: string) { exists k :: k in resources && resources[k].uid == uid }

  ghost predicate Honest(resources: map<string, Event>, d: Delivery) {
    && d.reply.id !in resources && d.reply.minted != "" && !Has(resources, d.reply.minted)
    && (d.raw.Ok? ==>
          match d.reply.found
          case Some(k) => k in resources && resources[k].uid == d.raw.value.uid
          case None => !Has(resources, d.raw.value.uid))
  }

  function Named(e: Event, minted: string): Event { if e.uid == "" then e.(uid := minted) else e }

  /** The store and the answer after one message. */
  function Processed(ports: Ports, s: State, d: Delivery): (State, Result<Event, Error>)
    requires d.raw.Ok? && d.reply.found.Some? ==> d.reply.found.value in s.resources
  {
    if d.raw.Err? then (s, Err(Unparsable))
    else if d.raw.value.kind != REQUEST then (s, Err(NotRequest))
    else
      var event := EventFromInvite(d.raw.value);
      if event.recurrenceId.Some? && ports.finder && ports.instanceWriter && Find in d.reply.failing then (s, Err(BackendFailed))
      else if event.recurrenceId.Some? && ports.finder && ports.instanceWriter && d.reply.found.Some? then
        if Override in d.reply.failing then (s, Err(BackendFailed))
        else (s.(overrides := s.overrides[(d.reply.found.value, event.recurrenceId.value) := event]), Ok(event))
      else if ports.finder && Find in d.reply.failing then (s, Err(BackendFailed))
      else if ports.finder && d.reply.found.Some? then
        var k := d.reply.found.value;
        if SequenceToUint(d.raw.value.sequence) <= s.resources[k].sequence then (s, Ok(s.resources[k]))
        else if Update in d.reply.failing then (s, Err(BackendFailed))
        else (s.(resources := s.resources[k := event]), Ok(event))
      else if Create in d.reply.failing then (s, Err(BackendFailed))
      else (s.(resources := s.resources[d.reply.id := Named(event, d.reply.minted)]), Ok(Named(event, d.reply.minted)))
  }

  class Store {
    const ports: Ports
    var resources: map<string, Event>
    var overrides: map<(string, int), Event>

    constructor (ports: Ports)
      ensures this.ports == ports && Contents() == State(map[], map[])
    {
      this.ports := ports;
      resources, overrides := map[], map[];
    }

    function Contents(): State
      reads this
    {
      State(resources, overrides)
    }

    method ProcessRequest(d: Delivery) returns (r: Result<Event, Error>)
      requires Honest(resources, d)
      modifies this
      ensures (Contents(), r) == Processed(ports, old(Contents()), d)
    {
      if d.raw.Err? {
        return Err(Unparsable);
      }
      var inv := d.raw.value;
      if inv.kind != REQUEST {
        return Err(NotRequest);
      }
      var event := EventFromInvite(inv);
      if event.recurrenceId.Some? && ports.finder && ports.instanceWriter {
        if Find in d.reply.failing {
          return Err(BackendFailed);
        }
        if d.reply.found.Some? {
          if Override in d.reply.failing {
            return Err(BackendFailed);
          }
          overrides := overrides[(d.reply.found.value, event.recurrenceId.value) := event];
          return Ok(event);
        }
      }
      if ports.finder {
        if Find in d.reply.failing {
          return Err(BackendFailed);
        }
        if d.reply.found.Some? {
          var existing := resources[d.reply.found.value];
          if SequenceToUint(inv.sequence) <= existing.sequence {
            return Ok(existing);
          }
          if Update in d.reply.failing {
            return Err(BackendFailed);
          }
          resources := resources[d.reply.found.value := event];
          return Ok(event);
        }
      }
      if Create in d.reply.failing {
        return Err(BackendFailed);
      }
      var created := Named(event, d.reply.minted);
      resources := resources[d.reply.id := created];
      return Ok(created);
    }
  }

  // ---- One message ----

  ghost predicate OnePerUid(resources: map<string, Event>) {
    forall j, k :: j in resources && k in resources && resources[j].uid == resources[k].uid ==> j == k
  }

  predicate Master(d: Delivery) { d.raw.Ok? && d.raw.value.kind == REQUEST && d.raw.value.recurrenceId.None? }

  /** A REQUEST leaves one event per UID exactly when the backend can look UIDs up, or there was
      nothing to look up. */
  lemma OnePerUidKeptIff(ports: Ports, s: State, d: Delivery)
    requires OnePerUid(s.resources) && Honest(s.resources, d) && Master(d)
    ensures OnePerUid(Processed(ports, s, d).0.resources) <==>
            ports.finder || d.raw.value.uid == "" || !Has(s.resources, d.raw.value.uid) || Create in d.reply.failing
  {
    var after := Processed(ports, s, d).0.resources;
    var uid := d.raw.value.uid;
    if !ports.finder && uid != "" && Has(s.resources, uid) && Create !in d.reply.failing {
      var k :| k in s.resources && s.resources[k].uid == uid;
      assert k in after && d.reply.id in after && after[k].uid == after[d.reply.id].uid;
    }
  }

  lemma StepKeepsOnePerUid(ports: Ports, s: State, d: Delivery)
    requires ports.finder && OnePerUid(s.resources) && Honest(s.resources, d)
    ensures OnePerUid(Processed(ports, s, d).0.resources)
  {
  }

  /** No stored event goes away, changes its UID or goes back to a lower SEQUENCE. */
  ghost predicate Advances(before: map<string, Event>, after: map<string, Event>) {
    forall k :: k in before ==> k in after && after[k].uid == before[k].uid && after[k].sequence >= before[k].sequence
  }

  lemma StepAdvances(ports: Ports, s: State, d: Delivery)
    requires Honest(s.resources, d)
    ensures Advances(s.resources, Processed(ports, s, d).0.resources)
  {
  }

  // ---- Any stream of messages ----

  ghost predicate Served(ports: Ports, s: State, ds: seq<Delivery>)
    decreases |ds|
  {
    ds == [] || (Honest(s.resources, ds[0]) && Served(ports, Processed(ports, s, ds[0]).0, ds[1..]))
  }

  ghost function Final(ports: Ports, s: State, ds: seq<Delivery>): State
    requires Served(ports, s, ds)
    decreases |ds|
  {
    if ds == [] then s else Final(ports, Processed(ports, s, ds[0]).0, ds[1..])
  }

  /** Any stream of messages, failures included, keeps one event per UID and never lowers a
      stored SEQUENCE. */
  lemma {:induction false} StreamAdvances(ports: Ports, s: State, ds: seq<Delivery>)
    requires ports.finder && OnePerUid(s.resources) && Served(ports, s, ds)
    ensures OnePerUid(Final(ports, s, ds).resources)
    ensures Advances(s.resources, Final(ports, s, ds).resources)
    decreases |ds|
  {
    if ds != [] {
      StepKeepsOnePerUid(ports, s, ds[0]);
      StepAdvances(ports, s, ds[0]);
      StreamAdvances(ports, Processed(ports, s, ds[0]).0, ds[1..]);
    }
  }

  ghost function Held(resources: map<string, Event>, uid: string): Option<Event> {
    if Has(resources, uid) then
      var k :| k in resources && resources[k].uid == uid;
      Some(resources[k])
    else None
  }

  lemma HeldAt(resources: map<string, Event>, k: string)
    requires OnePerUid(resources) && k in resources
    ensures Held(resources, resources[k].uid) == Some(resources[k])
  {
  }

  function Newer(held: Option<Event>, e: Event): Option<Event> {
    if held.Some? && e.sequence <= held.value.sequence then held else Some(e)
  }

  function Latest(held: Option<Event>, es: seq<Event>): Option<Event>
    decreases |es|
  {
    if es == [] then held else Latest(Newer(held, es[0]), es[1..])
  }

  /** The event a message carries for uid. */
  function Carries(uid: string): Delivery -> Option<Event> {
    (d: Delivery) => if Master(d) && d.raw.value.uid == uid then Some(EventFromInvite(d.raw.value)) else None
  }

  /** Messages the law is about: no instance REQUEST and no REQUEST without a UID. */
  predicate Plain(d: Delivery) {
    d.raw.Ok? && d.raw.value.kind == REQUEST ==> d.raw.value.recurrenceId.None? && d.raw.value.uid != ""
  }

  /** A call to the backend failed while the message was processed. */
  predicate Fails(ports: Ports, s: State, d: Delivery)
    requires d.raw.Ok? && d.reply.found.Some? ==> d.reply.found.value in s.resources
  {
    Processed(ports, s, d).1 == Err(BackendFailed)
  }

  /** The messages of a stream that no backend failure lost. */
  ghost function Landed(ports: Ports, s: State, ds: seq<Delivery>): seq<Delivery>
    requires Served(ports, s, ds)
    decreases |ds|
  {
    if ds == [] then []
    else (if Fails(ports, s, ds[0]) then [] else [ds[0]]) + Landed(ports, Processed(ports, s, ds[0]).0, ds[1..])
  }

  lemma FailureKeepsStore(ports: Ports, s: State, d: Delivery)
    requires Honest(s.resources, d) && Fails(ports, s, d)
    ensures Processed(ports, s, d).0 == s
  {
  }

  lemma UpdatedHolds(resources: map<string, Event>, k: string, e: Event, uid: string)
    requires OnePerUid(resources) && k in resources && e.uid == resources[k].uid
    ensures OnePerUid(resources[k := e])
    ensures Held(resources[k := e], uid) == if uid == e.uid then Some(e) else Held(resources, uid)
  {
    OthersHeld(resources, k, e, uid);
    HeldAt(resources[k := e], k);
  }

  lemma CreatedHolds(resources: map<string, Event>, k: string, e: Event, uid: string)
    requires OnePerUid(resources) && k !in resources && !Has(resources, e.uid)
    ensures OnePerUid(resources[k := e])
    ensures Held(resources[k := e], uid) == if uid == e.uid then Some(e) else Held(resources, uid)
  {
    assert forall j :: j in resources ==> resources[j].uid != e.uid;
    OthersHeld(resources, k, e, uid);
    HeldAt(resources[k := e], k);
  }

  lemma OthersHeld(resources: map<string, Event>, k: string, e: Event, uid: string)
    requires OnePerUid(resources) && OnePerUid(resources[k := e])
    requires k in resources ==> e.uid == resources[k].uid
    ensures uid != e.uid ==> Held(resources[k := e], uid) == Held(resources, uid)
  {
    if uid != e.uid && Has(resources, uid) {
      var j :| j in resources && resources[j].uid == uid;
      HeldAt(resources, j);
      HeldAt(resources[k := e], j);
    } else if uid != e.uid {
      assert !Has(resources[k := e], uid);
    }
  }

  lemma StepHolds(ports: Ports, s: State, d: Delivery, uid: string)
    requires ports.finder && OnePerUid(s.resources) && Honest(s.resources, d) && Plain(d)
    ensures Held(Processed(ports, s, d).0.resources, uid) ==
            var c := Carries(uid)(d);
            if c.Some? && !Fails(ports, s, d) then Newer(Held(s.resources, uid), c.value) else Held(s.resources, uid)
  {
    if Master(d) && !Fails(ports, s, d) {
      var e := EventFromInvite(d.raw.value);
      if d.reply.found.Some? {
        var k := d.reply.found.value;
        HeldAt(s.resources, k);
        if e.sequence > s.resources[k].sequence {
          UpdatedHolds(s.resources, k, e, uid);
        }
      } else {
        CreatedHolds(s.resources, d.reply.id, e, uid);
      }
    }
  }

  /** The store ends with the latest of what it held and of what the messages carried that no failure
      of the backend lost. */
  lemma {:induction false} StreamHolds(ports: Ports, s: State, ds: seq<Delivery>, uid: string)
    requires ports.finder && OnePerUid(s.resources) && Served(ports, s, ds) && forall d :: d in ds ==> Plain(d)
    ensures Held(Final(ports, s, ds).resources, uid) ==
            Latest(Held(s.resources, uid), Collect(Landed(ports, s, ds), Carries(uid)))
    decreases |ds|
  {
    if ds != [] {
      StepKeepsOnePerUid(ports, s, ds[0]);
      StepHolds(ports, s, ds[0], uid);
      var s' := Processed(ports, s, ds[0]).0;
      StreamHolds(ports, s', ds[1..], uid);
      LatestOfLanded(Held(s.resources, uid), Fails(ports, s, ds[0]), ds[0], Landed(ports, s', ds[1..]), uid);
    }
  }

  lemma LatestOfLanded(held: Option<Event>, fails: bool, d: Delivery, rest: seq<Delivery>, uid: string)
    ensures var c := Carries(uid)(d);
            Latest(held, Collect((if fails then [] else [d]) + rest, Carries(uid))) ==
            Latest(if c.Some? && !fails then Newer(held, c.value) else held, Collect(rest, Carries(uid)))
  {
    var landed := (if fails then [] else [d]) + rest;
    if fails {
      assert landed == rest;
    } else {
      assert landed[0] == d && landed[1..] == rest;
      var c, all := Carries(uid)(d), Collect(landed, Carries(uid));
      assert all == (if c.Some? then [c.value] else []) + Collect(rest, Carries(uid));
      if c.Some? {
        assert all[0] == c.value && all[1..] == Collect(rest, Carries(uid));
      } else {
        assert all == Collect(rest, Carries(uid));
      }
    }
  }

  lemma {:induction false} LandedAreDelivered(ports: Ports, s: State, ds: seq<Delivery>)
    requires Served(ports, s, ds)
    ensures forall d :: d in Landed(ports, s, ds) ==> d in ds
    decreases |ds|
  {
    if ds != [] {
      LandedAreDelivered(ports, Processed(ports, s, ds[0]).0, ds[1..]);
    }
  }

  /** The first message of maximal SEQUENCE wins, and what was held wins a tie. */
  ghost predicate FirstOfMaximal(held: Option<Event>, es: seq<Event>, r: Event) {
    && (forall e :: e in es ==> e.sequence <= r.sequence)
    && ((held == Some(r))
        || ((held.Some? ==> held.value.sequence < r.sequence)
            && exists i :: 0 <= i < |es| && es[i] == r && forall j :: 0 <= j < i ==> es[j].sequence < r.sequence))
  }

  lemma {:induction false} LatestIsFirstOfMaximal(held: Option<Event>, es: seq<Event>)
    requires held.Some? || es != []
    ensures Latest(held, es).Some? && FirstOfMaximal(held, es, Latest(held, es).value)
    decreases |es|
  {
    if es != [] {
      var next, rest := Newer(held, es[0]), es[1..];
      LatestIsFirstOfMaximal(next, rest);
      var r := Latest(next, rest).value;
      forall e | e in es ensures e.sequence <= r.sequence {
        if e != es[0] {
          assert e in rest;
        }
      }
      if next != Some(r) {
        var i :| 0 <= i < |rest| && rest[i] == r && forall j :: 0 <= j < i ==> rest[j].sequence < r.sequence;
        assert es[i + 1] == r && forall j :: 0 <= j < i + 1 ==> es[j].sequence < r.sequence by {
          forall j | 0 <= j < i + 1 ensures es[j].sequence < r.sequence {
            if j > 0 {
              assert es[j] == rest[j - 1];
            }
          }
        }
      } else if held != Some(r) {
        assert es[0] == r;
      }
    }
  }

  /** Equal SEQUENCE means equal content. */
  ghost predicate Consistent(held: Option<Event>, es: seq<Event>) {
    && (forall a, b :: a in es && b in es && a.sequence == b.sequence ==> a == b)
    && (held.Some? ==> forall a :: a in es && a.sequence == held.value.sequence ==> a == held.value)
  }

  lemma LatestIgnoresOrder(held: Option<Event>, es: seq<Event>, es': seq<Event>)
    requires Consistent(held, es) && forall e :: e in es <==> e in es'
    ensures Latest(held, es) == Latest(held, es')
  {
    assert (es != [] ==> es[0] in es') && (es' != [] ==> es'[0] in es);
    if es != [] {
      LatestIsFirstOfMaximal(held, es);
      LatestIsFirstOfMaximal(held, es');
      var r, r' := Latest(held, es).value, Latest(held, es').value;
      assert r.sequence == r'.sequence;
    }
  }

  ghost predicate Brings(ds: seq<Delivery>, raw: Result<Invite, Error>) { exists d :: d in ds && d.raw == raw }

  /** Two streams in which the same messages land, in any order and with any repetition, leave the
      same event for every UID. */
  lemma StreamsConverge(ports: Ports, s: State, ds: seq<Delivery>, ds': seq<Delivery>, uid: string)
    requires ports.finder && OnePerUid(s.resources)
    requires Served(ports, s, ds) && Served(ports, s, ds')
    requires (forall d :: d in ds ==> Plain(d)) && (forall d :: d in ds' ==> Plain(d))
    requires forall raw :: Brings(Landed(ports, s, ds), raw) <==> Brings(Landed(ports, s, ds'), raw)
    requires Consistent(Held(s.resources, uid), Collect(Landed(ports, s, ds), Carries(uid)))
    ensures Held(Final(ports, s, ds).resources, uid) == Held(Final(ports, s, ds').resources, uid)
  {
    StreamHolds(ports, s, ds, uid);
    StreamHolds(ports, s, ds', uid);
    var landed, landed' := Landed(ports, s, ds), Landed(ports, s, ds');
    SameCarried(landed, landed', uid);
    LatestIgnoresOrder(Held(s.resources, uid), Collect(landed, Carries(uid)), Collect(landed', Carries(uid)));
  }

  lemma SameCarried(ds: seq<Delivery>, ds': seq<Delivery>, uid: string)
    requires forall raw :: Brings(ds, raw) <==> Brings(ds', raw)
    ensures forall e :: e in Collect(ds, Carries(uid)) <==> e in Collect(ds', Carries(uid))
  {
    CollectElements(ds, Carries(uid));
    CollectElements(ds', Carries(uid));
    forall e | e in Collect(ds, Carries(uid)) ensures e in Collect(ds', Carries(uid)) {
      var d :| d in ds && Carries(uid)(d) == Some(e);
      assert Brings(ds, d.raw);
      var d' :| d' in ds' && d'.raw == d.raw;
      assert Carries(uid)(d') == Some(e);
    }
    forall e | e in Collect(ds', Carries(uid)) ensures e in Collect(ds, Carries(uid)) {
      var d :| d in ds' && Carries(uid)(d) == Some(e);
      assert Brings(ds', d.raw);
      var d' :| d' in ds && d'.raw == d.raw;
      assert Carries(uid)(d') == Some(e);
    }
  }
}
