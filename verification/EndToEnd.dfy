/** From the organizer's PATCH to the attendee's calendar: internal/server/calendar_write.go,
    internal/scheduling/scheduling.go and internal/itip/itip.go together, over a mail system
    that may lose, reorder and repeat. */
module EndToEnd {
  import opened Wrappers
  import opened Sequences
  import opened Participants
  import opened RosterLaws
  import opened Invitations
  import opened InviteStore
  import opened Scheduling
  import opened Addressees

  // ---- One REQUEST ----

  /** The recipients of an event as the mail carries them. */
  ghost function Arrived(m: Roster, mailbox: string): set<Address> {
    set a | a in RecipientSet(m, mailbox) && Carried(a) != Address("", "") :: Carried(a)
  }

  /** The attendee's copy e of the organizer's revision r. */
  ghost predicate Agrees(mailbox: string, e: Event, r: Event) {
    && e.uid == r.uid && e.title == r.title && e.sequence == r.sequence
    && e.start == r.start && EndTime(e) == EndTime(r)
    && AddressSet(e.participants) == Arrived(r.participants, mailbox)
    && exists a: Address :: EqualFold(a.email, mailbox) && InvitedBy(e, a)
  }

  ghost predicate InvitedBy(e: Event, a: Address) { Organizer(e.participants) == OrganizerOf(Carried(a)) }

  /** A length and a SEQUENCE that Go's signed types hold. */
  predicate Fits(e: Event) {
    e.sequence < TWO63 && (e.start.Some? && e.duration.Some? ==> 0 <= e.duration.value <= MAX_SECONDS)
  }

  lemma ReadOnlyOrganizer(organizer: Option<Participant>, attendees: seq<Participant>)
    requires forall p :: p in attendees ==> p.roles == {AttendeeRole}
    requires organizer.Some? ==> organizer.value.roles == {Owner}
    ensures Organizer(SetOrganizerAttendees(map[], organizer, attendees)) == organizer
    ensures forall p :: p in Attendees(SetOrganizerAttendees(map[], organizer, attendees)) <==> p in attendees
  {
    var m: Roster := SetOrganizerAttendees(map[], organizer, attendees);
    if organizer.Some? || attendees != [] {
      ReadBack(map[], organizer, attendees, Owner);
      FilterNone(attendees, (p: Participant) => Owner in p.roles);
      OneElement(WithRole(m, SortedKeys(m.Keys), Owner), if organizer.Some? then [organizer.value] else []);
      WrittenAddresses(map[], organizer, attendees);
    } else {
      assert m.Keys == {};
    }
  }

  lemma MappedAddresses(attendees: seq<Attendee>)
    ensures (set p | p in Map(attendees, ParticipantOf) :: AddressOf(p)) == set a | a in attendees :: a.address
    ensures forall p :: p in Map(attendees, ParticipantOf) ==> p.roles == {AttendeeRole}
  {
    var ps := Map(attendees, ParticipantOf);
    forall a | a in attendees ensures exists p :: p in ps && AddressOf(p) == a.address {
      var i :| 0 <= i < |attendees| && attendees[i] == a;
      assert ps[i] in ps;
    }
    forall p | p in ps ensures exists a :: a in attendees && a.address == AddressOf(p) {
      var i :| 0 <= i < |ps| && ps[i] == p;
      assert attendees[i] in attendees;
    }
  }

  lemma SameRoster(m: Roster, ps: seq<Participant>)
    requires forall p :: p in Attendees(m) <==> p in ps
    ensures AddressSet(m) == set p | p in ps :: AddressOf(p)
  {
  }

  lemma ReceivedRoster(inv: Invite)
    ensures Organizer(EventFromInvite(inv).participants) == OrganizerOf(inv.organizer)
    ensures AddressSet(EventFromInvite(inv).participants) == set a | a in inv.attendees :: a.address
  {
    var ps := Map(inv.attendees, ParticipantOf);
    MappedAddresses(inv.attendees);
    ReadOnlyOrganizer(OrganizerOf(inv.organizer), ps);
    SameRoster(SetOrganizerAttendees(map[], OrganizerOf(inv.organizer), ps), ps);
  }

  lemma CarriedAre(rs: seq<Attendee>, xs: set<Address>)
    requires forall r :: r in rs ==> r.address in xs && r.address.email != ""
    requires forall x :: x in xs ==> exists r :: r in rs && r.address == x
    ensures (set a | a in Collect(rs, CarriedAttendee) :: a.address) == set x | x in xs && Carried(x) != Address("", "") :: Carried(x)
  {
    CollectElements(rs, CarriedAttendee);
    forall a | a in Collect(rs, CarriedAttendee) ensures exists x :: x in xs && Carried(x) != Address("", "") && Carried(x) == a.address {
      var r :| r in rs && CarriedAttendee(r) == Some(a);
      assert r.address in xs;
    }
    forall x | x in xs && Carried(x) != Address("", "") ensures exists a :: a in Collect(rs, CarriedAttendee) && a.address == Carried(x) {
      var r :| r in rs && r.address == x;
      assert CarriedAttendee(r) == Some(Attendee(Carried(x), "NEEDS-ACTION"));
    }
  }

  lemma CarriedRecipients(e: Event, mailbox: string)
    ensures (set a | a in Collect(Recipients(e, mailbox), CarriedAttendee) :: a.address) == Arrived(e.participants, mailbox)
  {
    RecipientsAre(e, mailbox);
    CarriedAre(Recipients(e, mailbox), RecipientSet(e.participants, mailbox));
  }

  lemma TimesAgree(e: Event, inv: Invite)
    requires Fits(e) && inv.start == e.start && inv.sequence == ToInt64(e.sequence)
    requires inv.end == if EndTime(e).Some? then EndTime(e) else e.start
    ensures var r := EventFromInvite(inv); r.start == e.start && EndTime(r) == EndTime(e) && r.sequence == e.sequence
  {
  }

  /** A mailed event read back from its REQUEST agrees with the revision that was mailed. */
  lemma RequestAgrees(e: Event, mailbox: string)
    requires mailbox != "" && RequestOf(e, mailbox).Ok? && Fits(e)
    ensures Agrees(mailbox, EventFromInvite(Parse(RequestOf(e, mailbox).value)), e)
  {
    var inv := Addressed(e, mailbox, Recipients(e, mailbox));
    OrganizerHasEmail(e, mailbox);
    CarriedRecipients(e, mailbox);
    ReadBackAgrees(e, mailbox, inv);
  }

  lemma ReadBackAgrees(e: Event, mailbox: string, inv: Invite)
    requires Request(inv).Ok? && Fits(e) && EqualFold(inv.organizer.email, mailbox)
    requires inv.uid == e.uid && inv.summary == e.title && inv.start == e.start && inv.end == EndTime(e)
    requires inv.sequence == ToInt64(e.sequence)
    requires (set a | a in Collect(inv.attendees, CarriedAttendee) :: a.address) == Arrived(e.participants, mailbox)
    ensures Agrees(mailbox, EventFromInvite(Parse(Request(inv).value)), e)
  {
    RequestRoundTrip(inv);
    var received := Parse(Request(inv).value);
    TimesAgree(e, received);
    ReceivedRoster(received);
    assert InvitedBy(EventFromInvite(received), inv.organizer);
  }

  // ---- A run of patches ----

  datatype Patch = Patch(merged: Event, cancelGoes: bool, requestGoes: bool)

  /** A REQUEST on its way, and the revision the organizer stored with it. */
  datatype Sent = Sent(revision: Event, mail: Mail)

  function SentIn(event: Event, posted: seq<Posted>): seq<Sent> {
    Collect(posted, (p: Posted) => if p.mail.kind == REQUEST then Some(Sent(event, p.mail)) else None)
  }

  ghost function Patched(mailbox: string, current: Event, p: Patch): Outcome {
    Reinvited(mailbox, false, current, p.merged, p.cancelGoes, p.requestGoes)
  }

  /** Every patch starts from the event as stored, keeps its identity and its SEQUENCE, and
      addresses the master. */
  ghost predicate Chained(mailbox: string, current: Event, patches: seq<Patch>)
    decreases |patches|
  {
    patches == [] ||
    (var p := patches[0];
     && p.merged.uid == current.uid && p.merged.sequence == current.sequence
     && p.merged.recurrenceId.None? && Fits(p.merged)
     && Chained(mailbox, Patched(mailbox, current, p).event, patches[1..]))
  }

  ghost function AllSent(mailbox: string, current: Event, patches: seq<Patch>): seq<Sent>
    decreases |patches|
  {
    if patches == [] then []
    else
      var o := Patched(mailbox, current, patches[0]);
      SentIn(o.event, o.posted) + AllSent(mailbox, o.event, patches[1..])
  }

  ghost predicate Sound(mailbox: string, uid: string, s: Sent) {
    && s.mail.kind == REQUEST && s.mail.uid == uid && s.mail.recurrenceId.None?
    && s.mail.sequence == s.revision.sequence
    && Agrees(mailbox, EventFromInvite(Parse(s.mail)), s.revision)
  }

  lemma SameArrivals(m: Roster, m': Roster, mailbox: string)
    requires AddressSet(m) == AddressSet(m')
    ensures Arrived(m, mailbox) == Arrived(m', mailbox)
  {
    assert RecipientSet(m, mailbox) == RecipientSet(m', mailbox);
  }

  lemma AgreesAlike(mailbox: string, e: Event, r: Event, m: Roster)
    requires Agrees(mailbox, e, r) && Arrived(r.participants, mailbox) == Arrived(m, mailbox)
    ensures Agrees(mailbox, e, r.(participants := m))
  {
  }

  lemma AgreesAfterRecording(mailbox: string, e: Event, r: Event, status: string)
    requires Agrees(mailbox, e, r)
    ensures Agrees(mailbox, e, r.(participants := Recorded(r.participants, mailbox, status)))
  {
    var m := Recorded(r.participants, mailbox, status);
    RecordedKeepsAddresses(r.participants, mailbox, status);
    SameArrivals(r.participants, m, mailbox);
    AgreesAlike(mailbox, e, r, m);
  }

  lemma MailIsSound(mailbox: string, e: Event)
    requires mailbox != "" && Fits(e) && e.recurrenceId.None? && RequestOf(e, mailbox).Ok?
    ensures Sound(mailbox, e.uid, Sent(e, RequestOf(e, mailbox).value))
  {
    RequestAgrees(e, mailbox);
  }

  lemma RecordedIsSound(mailbox: string, e: Event, mail: Mail, status: string)
    requires Sound(mailbox, e.uid, Sent(e, mail))
    ensures Sound(mailbox, e.uid, Sent(e.(participants := Recorded(e.participants, mailbox, status)), mail))
  {
    AgreesAfterRecording(mailbox, EventFromInvite(Parse(mail)), e, status);
  }

  /** The REQUEST agrees with the event as it was before the outcome was recorded, and after. */
  lemma MailedIsSound(mailbox: string, e: Event, goes: bool)
    requires mailbox != "" && Fits(e) && e.recurrenceId.None?
    ensures var o := Mailed(mailbox, e, goes);
            && o.event.uid == e.uid && o.event.sequence == e.sequence
            && |o.posted| <= 1
            && forall p :: p in o.posted ==> && p.mail.kind == REQUEST
                                             && Sound(mailbox, e.uid, Sent(e, p.mail))
                                             && Sound(mailbox, e.uid, Sent(o.event, p.mail))
  {
    var posted := Requests(e, mailbox, goes);
    if posted != [] {
      MailIsSound(mailbox, e);
      RecordedIsSound(mailbox, e, posted[0].mail, Status(posted));
    }
  }

  lemma SentOne(event: Event, cancels: seq<Posted>, requests: seq<Posted>)
    requires (forall p :: p in cancels ==> p.mail.kind == CANCEL) && (forall p :: p in requests ==> p.mail.kind == REQUEST)
    requires |requests| <= 1 && |cancels| <= 1
    ensures SentIn(event, cancels + requests) == if requests == [] then [] else [Sent(event, requests[0].mail)]
  {
    CollectAppend(cancels, requests, (p: Posted) => if p.mail.kind == REQUEST then Some(Sent(event, p.mail)) else None);
  }

  ghost predicate PatchSound(mailbox: string, current: Event, event: Event, sent: seq<Sent>) {
    && event.uid == current.uid
    && current.sequence <= event.sequence <= current.sequence + 1
    && |sent| <= 1
    && (sent != [] ==> event.sequence == current.sequence + 1)
    && forall s :: s in sent ==> s.revision == event && Sound(mailbox, current.uid, s)
  }

  lemma ResentIsSound(mailbox: string, current: Event, revision: Event, cancels: seq<Posted>, goes: bool)
    requires mailbox != "" && revision.uid == current.uid && revision.sequence == current.sequence + 1
    requires Fits(revision) && revision.recurrenceId.None?
    requires |cancels| <= 1 && forall p :: p in cancels ==> p.mail.kind == CANCEL
    ensures var o := Mailed(mailbox, revision, goes);
            PatchSound(mailbox, current, o.event, SentIn(o.event, cancels + o.posted))
  {
    var o := Mailed(mailbox, revision, goes);
    MailedIsSound(mailbox, revision, goes);
    SentOne(o.event, cancels, o.posted);
  }

  lemma UnsentIsSound(mailbox: string, current: Event, event: Event, cancels: seq<Posted>)
    requires event.uid == current.uid && current.sequence <= event.sequence <= current.sequence + 1
    requires |cancels| <= 1 && forall p :: p in cancels ==> p.mail.kind == CANCEL
    ensures PatchSound(mailbox, current, event, SentIn(event, cancels))
  {
    SentOne(event, cancels, []);
    assert cancels + [] == cancels;
  }

  lemma OnlyCancels(mailbox: string, current: Event, merged: Event, goes: bool)
    requires mailbox != ""
    ensures var cancels := Cancels(current, mailbox, Removed(current, merged, mailbox), goes);
            |cancels| <= 1 && forall p :: p in cancels ==> p.mail.kind == CANCEL
  {
    CancelsGoTo(current, merged, mailbox, goes);
  }

  lemma RevisionFits(mailbox: string, current: Event, p: Patch)
    requires p.merged.uid == current.uid && p.merged.sequence == current.sequence
    requires p.merged.recurrenceId.None? && Fits(p.merged) && current.sequence + 1 < TWO63
    ensures var revision := Revision(mailbox, current, p.merged);
            revision.uid == current.uid && revision.sequence == current.sequence + 1 && Fits(revision) && revision.recurrenceId.None?
  {
  }

  lemma ConsequencesAreSound(mailbox: string, current: Event, p: Patch, removed: seq<Attendee>, resend: bool)
    requires mailbox != "" && p.merged.uid == current.uid && p.merged.sequence == current.sequence
    requires p.merged.recurrenceId.None? && Fits(p.merged) && current.sequence + 1 < TWO63
    requires var cancels := Cancels(current, mailbox, removed, p.cancelGoes);
             |cancels| <= 1 && forall q :: q in cancels ==> q.mail.kind == CANCEL
    ensures var o := Consequences(mailbox, current, p.merged, removed, resend, p.cancelGoes, p.requestGoes);
            PatchSound(mailbox, current, o.event, SentIn(o.event, o.posted))
  {
    var revision := Revision(mailbox, current, p.merged);
    var cancels := Cancels(current, mailbox, removed, p.cancelGoes);
    RevisionFits(mailbox, current, p);
    if resend {
      ResentIsSound(mailbox, current, revision, cancels, p.requestGoes);
    } else if removed != [] {
      UnsentIsSound(mailbox, current, revision, cancels);
    } else {
      UnsentIsSound(mailbox, current, p.merged, []);
    }
  }

  /** One patch: the stored SEQUENCE stays or goes up by one, and any REQUEST carries the new one. */
  lemma PatchIsSound(mailbox: string, current: Event, p: Patch)
    requires mailbox != "" && p.merged.uid == current.uid && p.merged.sequence == current.sequence
    requires p.merged.recurrenceId.None? && Fits(p.merged) && current.sequence + 1 < TWO63
    ensures var o := Patched(mailbox, current, p); PatchSound(mailbox, current, o.event, SentIn(o.event, o.posted))
  {
    OnlyCancels(mailbox, current, p.merged, p.cancelGoes);
    ConsequencesAreSound(mailbox, current, p, Removed(current, p.merged, mailbox),
                         SignificantChange(current, p.merged) || Added(current, p.merged, mailbox));
  }

  ghost predicate Increasing(sent: seq<Sent>) {
    forall i, j :: 0 <= i < j < |sent| ==> sent[i].mail.sequence < sent[j].mail.sequence
  }

  /** Over any run of patches the REQUESTs carry strictly increasing revisions, so no two share
      one, and each agrees with the event stored along with it. */
  lemma {:induction false} RunIsSound(mailbox: string, current: Event, patches: seq<Patch>)
    requires mailbox != "" && Chained(mailbox, current, patches) && current.sequence + |patches| < TWO63
    ensures var sent := AllSent(mailbox, current, patches);
            && Increasing(sent)
            && forall s :: s in sent ==> Sound(mailbox, current.uid, s) && s.mail.sequence > current.sequence
    decreases |patches|
  {
    if patches != [] {
      var o := Patched(mailbox, current, patches[0]);
      var head, tail := SentIn(o.event, o.posted), AllSent(mailbox, o.event, patches[1..]);
      PatchIsSound(mailbox, current, patches[0]);
      RunIsSound(mailbox, o.event, patches[1..]);
      IncreasingAppend(head, tail, o.event.sequence);
    }
  }

  lemma IncreasingAppend(head: seq<Sent>, tail: seq<Sent>, bound: int)
    requires |head| <= 1 && Increasing(tail)
    requires (forall s :: s in head ==> s.mail.sequence <= bound) && (forall s :: s in tail ==> s.mail.sequence > bound)
    ensures Increasing(head + tail)
  {
    var all := head + tail;
    forall i, j | 0 <= i < j < |all| ensures all[i].mail.sequence < all[j].mail.sequence {
      assert tail[j - |head|] in tail;
      if i < |head| {
        assert head[i] in head;
      } else {
        assert all[i] == tail[i - |head|];
      }
    }
  }

  /** A meeting's whole life: created with its invitation, whose outcome may or may not be written,
      then patched. */
  ghost function Life(mailbox: string, created: Event, goes: bool, writes: bool, patches: seq<Patch>): seq<Sent> {
    var o := Invited(mailbox, false, created, goes, writes);
    SentIn(o.event, o.posted) + AllSent(mailbox, o.event, patches)
  }

  ghost predicate Meeting(mailbox: string, created: Event, goes: bool, writes: bool, patches: seq<Patch>) {
    && mailbox != "" && created.uid != "" && created.recurrenceId.None? && Fits(created)
    && created.sequence + |patches| < TWO63
    && Chained(mailbox, Invited(mailbox, false, created, goes, writes).event, patches)
  }

  lemma InvitationIsSound(mailbox: string, created: Event, goes: bool, writes: bool)
    requires mailbox != "" && Fits(created) && created.recurrenceId.None?
    ensures var o := Invited(mailbox, false, created, goes, writes);
            var sent := SentIn(o.event, o.posted);
            && o.event.uid == created.uid && o.event.sequence == created.sequence && |sent| <= 1
            && forall s :: s in sent ==> Sound(mailbox, created.uid, s) && s.mail.sequence <= created.sequence
  {
    if Recipients(created, mailbox) == [] {
      SentOne(created, [], []);
    } else {
      MailedCreation(mailbox, created, goes, if writes then Mailed(mailbox, created, goes).event else created);
    }
  }

  lemma MailedCreation(mailbox: string, created: Event, goes: bool, stored: Event)
    requires mailbox != "" && Fits(created) && created.recurrenceId.None?
    requires stored == created || stored == Mailed(mailbox, created, goes).event
    ensures var sent := SentIn(stored, Mailed(mailbox, created, goes).posted);
            && stored.uid == created.uid && stored.sequence == created.sequence && |sent| <= 1
            && forall s :: s in sent ==> Sound(mailbox, created.uid, s) && s.mail.sequence <= created.sequence
  {
    var posted := Mailed(mailbox, created, goes).posted;
    MailedIsSound(mailbox, created, goes);
    SentOne(stored, [], posted);
    assert [] + posted == posted;
  }

  lemma LifeIsSound(mailbox: string, created: Event, goes: bool, writes: bool, patches: seq<Patch>)
    requires Meeting(mailbox, created, goes, writes, patches)
    ensures var sent := Life(mailbox, created, goes, writes, patches);
            Increasing(sent) && forall s :: s in sent ==> Sound(mailbox, created.uid, s)
  {
    var o := Invited(mailbox, false, created, goes, writes);
    InvitationIsSound(mailbox, created, goes, writes);
    RunIsSound(mailbox, o.event, patches);
    IncreasingAppend(SentIn(o.event, o.posted), AllSent(mailbox, o.event, patches), created.sequence);
  }

  // ---- The attendee ----

  /** The mail of s is among ds. */
  ghost predicate Delivered(ds: seq<Delivery>, s: Sent) { exists d :: d in ds && d.raw == Ok(Parse(s.mail)) }

  /** Whatever the mail system loses, reorders or repeats, and whichever calls to the attendee's
      backend fail, the attendee's calendar holds the meeting exactly when some REQUEST landed, and
      then as the organizer stored it at the highest SEQUENCE that landed. Mail about other meetings
      and messages of other methods may come in between. */
  lemma AttendeeHoldsHighestDelivered(mailbox: string, created: Event, goes: bool, writes: bool, patches: seq<Patch>,
                                      ports: Ports, s: State, ds: seq<Delivery>)
    requires Meeting(mailbox, created, goes, writes, patches)
    requires ports.finder && OnePerUid(s.resources) && !Has(s.resources, created.uid)
    requires Served(ports, s, ds) && forall d :: d in ds ==> Plain(d)
    requires forall d :: d in ds && Carries(created.uid)(d).Some? ==>
               exists x :: x in Life(mailbox, created, goes, writes, patches) && d.raw == Ok(Parse(x.mail))
    ensures var sent := Life(mailbox, created, goes, writes, patches);
            var held, landed := Held(Final(ports, s, ds).resources, created.uid), Landed(ports, s, ds);
            && (held.Some? <==> exists x :: x in sent && Delivered(landed, x))
            && (held.Some? ==> exists x :: x in sent && Delivered(landed, x) && Agrees(mailbox, held.value, x.revision)
                                           && forall y :: y in sent && Delivered(landed, y) ==> y.revision.sequence <= x.revision.sequence)
  {
    var sent, uid := Life(mailbox, created, goes, writes, patches), created.uid;
    LifeIsSound(mailbox, created, goes, writes, patches);
    StreamHolds(ports, s, ds, uid);
    LandedAreDelivered(ports, s, ds);
    assert Held(s.resources, uid) == None;
    LatestOfSent(mailbox, sent, Landed(ports, s, ds), uid);
  }

  lemma LatestOfSent(mailbox: string, sent: seq<Sent>, landed: seq<Delivery>, uid: string)
    requires uid != "" && forall s :: s in sent ==> Sound(mailbox, uid, s)
    requires forall d :: d in landed && Carries(uid)(d).Some? ==> exists x :: x in sent && d.raw == Ok(Parse(x.mail))
    ensures var held := Latest(None, Collect(landed, Carries(uid)));
            && (held.Some? <==> exists x :: x in sent && Delivered(landed, x))
            && (held.Some? ==> exists x :: x in sent && Delivered(landed, x) && Agrees(mailbox, held.value, x.revision)
                                           && forall y :: y in sent && Delivered(landed, y) ==> y.revision.sequence <= x.revision.sequence)
  {
    var es := Collect(landed, Carries(uid));
    CollectElements(landed, Carries(uid));
    forall y | y in sent && Delivered(landed, y) ensures EventFromInvite(Parse(y.mail)) in es {
      SentCarried(mailbox, landed, uid, y);
    }
    if es != [] {
      LatestIsFirstOfMaximal(None, es);
      HighestLanded(mailbox, sent, landed, uid, Latest(None, es).value);
    }
  }

  lemma SentCarried(mailbox: string, landed: seq<Delivery>, uid: string, y: Sent)
    requires Sound(mailbox, uid, y) && Delivered(landed, y) && uid != ""
    ensures exists d :: d in landed && Carries(uid)(d) == Some(EventFromInvite(Parse(y.mail)))
  {
    var d :| d in landed && d.raw == Ok(Parse(y.mail));
    assert Carries(uid)(d) == Some(EventFromInvite(Parse(y.mail)));
  }

  lemma HighestLanded(mailbox: string, sent: seq<Sent>, landed: seq<Delivery>, uid: string, r: Event)
    requires forall s :: s in sent ==> Sound(mailbox, uid, s)
    requires exists d :: d in landed && Carries(uid)(d) == Some(r)
    requires forall d :: d in landed && Carries(uid)(d).Some? ==> exists x :: x in sent && d.raw == Ok(Parse(x.mail))
    requires forall y :: y in sent && Delivered(landed, y) ==> EventFromInvite(Parse(y.mail)).sequence <= r.sequence
    ensures exists x :: x in sent && Delivered(landed, x) && Agrees(mailbox, r, x.revision)
                        && forall y :: y in sent && Delivered(landed, y) ==> y.revision.sequence <= x.revision.sequence
  {
    var d :| d in landed && Carries(uid)(d) == Some(r);
    var x :| x in sent && d.raw == Ok(Parse(x.mail));
    assert Delivered(landed, x) && Agrees(mailbox, r, x.revision);
  }

  // ---- The revision that follows ----

  lemma ReceivedSequence(inv: Invite, n: uint64)
    requires inv.sequence == ToInt64(n)
    ensures EventFromInvite(inv).sequence == SequenceToUint(ToInt64(n)) == if n < TWO63 then n else 0
  {
    SequenceCarried(n);
  }

  lemma NextReplacesIff(ports: Ports, s: State, d: Delivery, uid: string, n: uint64, held: Event)
    requires ports.finder && OnePerUid(s.resources) && Honest(s.resources, d)
    requires d.raw.Ok? && d.raw.value.kind == REQUEST && d.raw.value.uid == uid != "" && d.raw.value.recurrenceId.None?
    requires d.raw.value.sequence == ToInt64((n + 1) % TWO64)
    requires Held(s.resources, uid) == Some(held) && held.sequence == SequenceToUint(ToInt64(n))
    ensures Held(Processed(ports, s, d).0.resources, uid) ==
            Some(if n + 1 < TWO63 && !Fails(ports, s, d) then EventFromInvite(d.raw.value) else held)
  {
    NextSequenceSupersedesIff(n);
    StepHolds(ports, s, d, uid);
  }

  /** An attendee who holds revision n of a meeting and receives revision n + 1, as `MailedIs` says the
      organizer's mail carries them, holds the new one exactly when n + 1 fits a signed integer and its
      backend does not fail. */
  lemma SuccessorReplacesIff(ports: Ports, s: State, d: Delivery, uid: string, n: uint64, was: Invite, now: Invite)
    requires ports.finder && OnePerUid(s.resources) && Honest(s.resources, d)
    requires d.raw == Ok(now) && now.kind == REQUEST && now.uid == uid != "" && now.recurrenceId.None?
    requires was.sequence == ToInt64(n) && now.sequence == ToInt64((n + 1) % TWO64)
    requires Held(s.resources, uid) == Some(EventFromInvite(was))
    ensures Held(Processed(ports, s, d).0.resources, uid) ==
            Some(EventFromInvite(if n + 1 < TWO63 && !Fails(ports, s, d) then now else was))
  {
    ReceivedSequence(was, n);
    NextReplacesIff(ports, s, d, uid, n, EventFromInvite(was));
  }

  lemma MailedIs(mailbox: string, e: Event)
    requires mailbox != "" && RequestOf(e, mailbox).Ok?
    ensures var inv := Parse(RequestOf(e, mailbox).value);
            && inv.kind == REQUEST && inv.uid == e.uid && e.uid != "" && inv.recurrenceId == e.recurrenceId
            && inv.start == e.start && inv.end == (if EndTime(e).Some? then EndTime(e) else e.start)
            && inv.sequence == ToInt64(e.sequence)
  {
    RequestRoundTrip(Addressed(e, mailbox, Recipients(e, mailbox)));
  }

  /** The end instant of an event that is mailed, parsed and stored survives exactly when the offset
      addDuration adds is not negative and fits a time.Duration. */
  lemma MailedEndKeptIff(mailbox: string, e: Event)
    requires mailbox != "" && RequestOf(e, mailbox).Ok?
    ensures EndTime(EventFromInvite(Parse(RequestOf(e, mailbox).value))) == EndTime(e) <==>
            (e.start.Some? && e.duration.Some? ==> 0 <= e.duration.value <= MAX_SECONDS)
  {
    MailedIs(mailbox, e);
    ReceivedEndKeptIff(Parse(RequestOf(e, mailbox).value), e);
  }

  lemma ReceivedEndKeptIff(inv: Invite, e: Event)
    requires inv.start == e.start && inv.end == if EndTime(e).Some? then EndTime(e) else e.start
    ensures EndTime(EventFromInvite(inv)) == EndTime(e) <==>
            (e.start.Some? && e.duration.Some? ==> 0 <= e.duration.value <= MAX_SECONDS)
  {
    EndTimeKeptIff(e);
  }
}
