/** internal/server/calendar_write.go: what creating and patching a meeting mails to its
    attendees, and the event that is stored. */
module Scheduling {
  import opened Wrappers
  import opened Sequences
  import opened Participants
  import opened Invitations

  /** A message handed to the mail relay. */
  datatype Posted = Posted(rcpt: seq<string>, mail: Mail)

  datatype Outcome = Outcome(event: Event, posted: seq<Posted>)

  const SENT: string := "1.1"
  const NO_DELIVERY: string := "5.1"

  predicate EqualFold(a: string, b: string) { ToLower(a) == ToLower(b) }

  predicate IsRecipient(email: string, organizer: string) { email != "" && !EqualFold(email, organizer) }

  function Receives(organizer: string): Attendee -> bool { (a: Attendee) => IsRecipient(a.address.email, organizer) }

  ghost function Recipients(e: Event, organizer: string): seq<Attendee> {
    Filter(InviteFromEvent(e).attendees, Receives(organizer))
  }

  function Folded(attendees: seq<Attendee>): set<string> { set a | a in attendees :: ToLower(a.address.email) }

  function OutsideOf(keep: set<string>): Attendee -> bool { (a: Attendee) => ToLower(a.address.email) !in keep }

  /** The attendees a patch dropped. */
  ghost function Removed(current: Event, merged: Event, organizer: string): seq<Attendee> {
    Filter(Recipients(current, organizer), OutsideOf(Folded(Recipients(merged, organizer))))
  }

  ghost predicate Added(current: Event, merged: Event, organizer: string) {
    !(Folded(Recipients(merged, organizer)) <= Folded(Recipients(current, organizer)))
  }

  predicate SignificantChange(current: Event, merged: Event) {
    current.start != merged.start || EndTime(current) != EndTime(merged) || current.location != merged.location
  }

  function OrganizerFor(organizer: Address, mailbox: string): Address {
    if EqualFold(organizer.email, mailbox) then organizer else Address("", mailbox)
  }

  function Emails(attendees: seq<Attendee>): seq<string> {
    Collect(attendees, (a: Attendee) => if a.address.email == "" then None else Some(a.address.email))
  }

  // ---- Bookkeeping on the stored roster ----

  function Reset(organizer: string): Participant -> Participant {
    (p: Participant) => if IsRecipient(ParticipantEmail(p), organizer) then p.(partStat := "needs-action") else p
  }

  function Stamp(organizer: string, status: string): Participant -> Participant {
    (p: Participant) => if IsRecipient(ParticipantEmail(p), organizer) then p.(scheduleStatus := [status]) else p
  }

  ghost function WithOrganizer(m: Roster, organizer: string): Roster {
    if Organizer(m).Some? && EqualFold(ParticipantEmail(Organizer(m).value), organizer) then m
    else SetOrganizerAttendees(m, Some(NewParticipant("", organizer, "", Owner)), Attendees(m))
  }

  ghost function Recorded(m: Roster, organizer: string, status: string): Roster {
    EachAttendee(WithOrganizer(m, organizer), Stamp(organizer, status))
  }

  // ---- What is mailed ----

  ghost function Addressed(e: Event, mailbox: string, attendees: seq<Attendee>): Invite {
    var inv := InviteFromEvent(e);
    inv.(organizer := OrganizerFor(inv.organizer, mailbox), attendees := attendees)
  }

  ghost function RequestOf(e: Event, mailbox: string): Result<Mail, Error> {
    Request(Addressed(e, mailbox, Recipients(e, mailbox)))
  }

  /** The REQUEST for e, when it can be built and the relay takes it. */
  ghost function Requests(e: Event, mailbox: string, goes: bool): seq<Posted> {
    if RequestOf(e, mailbox).Ok? && goes then [Posted(Emails(Recipients(e, mailbox)), RequestOf(e, mailbox).value)] else []
  }

  ghost function Cancels(e: Event, mailbox: string, removed: seq<Attendee>, goes: bool): seq<Posted> {
    var cancel := Cancel(Addressed(e, mailbox, removed));
    if removed != [] && cancel.Ok? && Emails(removed) != [] && goes then [Posted(Emails(removed), cancel.value)] else []
  }

  function Status(posted: seq<Posted>): string { if posted == [] then NO_DELIVERY else SENT }

  /** e mailed as a REQUEST, the outcome recorded on it. */
  ghost function Mailed(mailbox: string, e: Event, goes: bool): Outcome {
    var posted := Requests(e, mailbox, goes);
    Outcome(e.(participants := Recorded(e.participants, mailbox, Status(posted))), posted)
  }

  /** What a creation leaves stored and mailed: the mail goes out first, and a failing write leaves
      the event as it was created. */
  ghost function Invited(mailbox: string, native: bool, e: Event, goes: bool, writes: bool): Outcome {
    if mailbox == "" || native || Recipients(e, mailbox) == [] then Outcome(e, [])
    else Outcome(if writes then Mailed(mailbox, e, goes).event else e, Mailed(mailbox, e, goes).posted)
  }

  /** The revision a patch mails: SEQUENCE bumped, and the answers reset by a significant change. */
  ghost function Revision(mailbox: string, current: Event, merged: Event): Event {
    merged.(sequence := (current.sequence + 1) % TWO64,
            participants := if SignificantChange(current, merged) then EachAttendee(merged.participants, Reset(mailbox))
                            else merged.participants)
  }

  ghost function Reinvited(mailbox: string, native: bool, current: Event, merged: Event, cancelGoes: bool, requestGoes: bool): Outcome {
    if mailbox == "" || native then Outcome(merged, [])
    else Consequences(mailbox, current, merged, Removed(current, merged, mailbox),
                      SignificantChange(current, merged) || Added(current, merged, mailbox), cancelGoes, requestGoes)
  }

  ghost function Consequences(mailbox: string, current: Event, merged: Event, removed: seq<Attendee>, resend: bool,
                              cancelGoes: bool, requestGoes: bool): Outcome {
    if removed == [] && !resend then Outcome(merged, [])
    else
      var revision, cancels := Revision(mailbox, current, merged), Cancels(current, mailbox, removed, cancelGoes);
      if resend then
        var mailed := Mailed(mailbox, revision, requestGoes);
        Outcome(mailed.event, cancels + mailed.posted)
      else Outcome(revision, cancels)
  }

  // ---- The handler ----

  method ReadOrganizer(m: Roster) returns (r: Option<Participant>)
    ensures r == Organizer(m)
  {
    var keys := SortedParticipantKeys(m);
    var owners := WithRole(m, keys, Owner);
    r := if owners == [] then None else Some(owners[0]);
  }

  method ReadAttendees(m: Roster) returns (r: seq<Participant>)
    ensures r == Attendees(m)
  {
    var keys := SortedParticipantKeys(m);
    r := WithRole(m, keys, AttendeeRole);
  }

  /** eachAttendee: f on a copy of every attendee, the roster written back. */
  method RewriteAttendees(m: Roster, f: Participant -> Participant) returns (r: Roster)
    ensures r == EachAttendee(m, f)
  {
    var attendees := ReadAttendees(m);
    ghost var before := attendees;
    var i := 0;
    while i < |attendees|
      invariant i <= |attendees| == |before|
      invariant forall j :: 0 <= j < i ==> attendees[j] == f(before[j])
      invariant forall j :: i <= j < |before| ==> attendees[j] == before[j]
    {
      attendees := attendees[i := f(attendees[i])];
      i := i + 1;
    }
    var organizer := ReadOrganizer(m);
    assert attendees == seq(|before|, j requires 0 <= j < |before| => f(before[j]));
    r := SetOrganizerAttendees(m, organizer, attendees);
  }

  method RecordSchedulingOutcome(m: Roster, organizer: string, status: string) returns (r: Roster)
    ensures r == Recorded(m, organizer, status)
  {
    var org := ReadOrganizer(m);
    r := m;
    if org.None? || !EqualFold(ParticipantEmail(org.value), organizer) {
      var attendees := ReadAttendees(m);
      r := SetOrganizerAttendees(m, Some(NewParticipant("", organizer, "", Owner)), attendees);
    }
    r := RewriteAttendees(r, Stamp(organizer, status));
  }

  method BuildInvite(e: Event) returns (inv: Invite)
    ensures inv == InviteFromEvent(e)
  {
    var attendees := ReadAttendees(e.participants);
    var organizer := ReadOrganizer(e.participants);
    inv := Invite(REQUEST, e.uid, e.recurrenceId,
                  if organizer.Some? then AddressOf(organizer.value) else Address("", ""),
                  Map(attendees, AttendeeOf), e.title, e.start, EndTime(e), ToInt64(e.sequence));
  }

  method EventRecipients(e: Event, organizer: string) returns (r: seq<Attendee>)
    ensures r == Recipients(e, organizer)
  {
    var inv := BuildInvite(e);
    r := Filter(inv.attendees, Receives(organizer));
  }

  method FoldedAddresses(attendees: seq<Attendee>) returns (folded: set<string>)
    ensures folded == Folded(attendees)
  {
    folded := {};
    for i := 0 to |attendees|
      invariant folded == Folded(attendees[..i])
    {
      assert attendees[..i + 1] == attendees[..i] + [attendees[i]];
      folded := folded + {ToLower(attendees[i].address.email)};
    }
    assert attendees[..|attendees|] == attendees;
  }

  method RemovedRecipients(current: Event, merged: Event, organizer: string) returns (out: seq<Attendee>)
    ensures out == Removed(current, merged, organizer)
  {
    var kept := EventRecipients(merged, organizer);
    var keep := FoldedAddresses(kept);
    var had := EventRecipients(current, organizer);
    out := Dropped(had, keep);
  }

  method Dropped(had: seq<Attendee>, keep: set<string>) returns (out: seq<Attendee>)
    ensures out == Filter(had, OutsideOf(keep))
  {
    out := [];
    for i := 0 to |had|
      invariant out == Filter(had[..i], OutsideOf(keep))
    {
      assert had[..i + 1][..i] == had[..i];
      if ToLower(had[i].address.email) !in keep {
        out := out + [had[i]];
      }
    }
    assert had[..|had|] == had;
  }

  method RosterAdded(current: Event, merged: Event, organizer: string) returns (added: bool)
    ensures added == Added(current, merged, organizer)
  {
    var before := EventRecipients(current, organizer);
    var had := FoldedAddresses(before);
    var now := EventRecipients(merged, organizer);
    added := AnyOutside(now, had);
  }

  method AnyOutside(now: seq<Attendee>, had: set<string>) returns (found: bool)
    ensures found == !(Folded(now) <= had)
  {
    for i := 0 to |now|
      invariant Folded(now[..i]) <= had
    {
      if ToLower(now[i].address.email) !in had {
        assert ToLower(now[i].address.email) in Folded(now);
        return true;
      }
      assert now[..i + 1] == now[..i] + [now[i]];
    }
    assert now[..|now|] == now;
    found := false;
  }

  lemma Appended<T>(a: seq<T>, b: seq<T>, c: seq<T>)
    ensures a + b + c == a + (b + c)
  {
  }

  class Handler {
    const mailbox: string
    const native: bool
    var outbox: seq<Posted>

    constructor (mailbox: string, native: bool)
      ensures this.mailbox == mailbox && this.native == native && outbox == []
    {
      this.mailbox, this.native, outbox := mailbox, native, [];
    }

    method SendRequest(e: Event, goes: bool) returns (status: string)
      modifies this
      ensures outbox == old(outbox) + Requests(e, mailbox, goes)
      ensures status == Status(Requests(e, mailbox, goes))
    {
      var inv := BuildInvite(e);
      inv := inv.(organizer := OrganizerFor(inv.organizer, mailbox), attendees := Filter(inv.attendees, Receives(mailbox)));
      var built := Request(inv);
      if built.Err? || !goes {
        return NO_DELIVERY;
      }
      outbox := outbox + [Posted(Emails(inv.attendees), built.value)];
      return SENT;
    }

    method SendCancelTo(e: Event, recipients: seq<Attendee>, goes: bool)
      modifies this
      ensures outbox == old(outbox) + Cancels(e, mailbox, recipients, goes)
    {
      if recipients == [] {
        return;
      }
      var inv := BuildInvite(e);
      inv := inv.(organizer := OrganizerFor(inv.organizer, mailbox), attendees := recipients);
      var built := Cancel(inv);
      if built.Ok? && Emails(recipients) != [] && goes {
        outbox := outbox + [Posted(Emails(recipients), built.value)];
      }
    }

    method SendAndRecord(event: Event, goes: bool) returns (r: Event)
      modifies this
      ensures var o := Mailed(mailbox, event, goes); r == o.event && outbox == old(outbox) + o.posted
    {
      var status := SendRequest(event, goes);
      var roster := RecordSchedulingOutcome(event.participants, mailbox, status);
      r := event.(participants := roster);
    }

    /** The answer carries the outcome even when it could not be stored. */
    method InviteAttendees(event: Event, goes: bool, writes: bool) returns (r: Event, stored: Event)
      modifies this
      ensures var o := Invited(mailbox, native, event, goes, writes); stored == o.event && outbox == old(outbox) + o.posted
      ensures r == Invited(mailbox, native, event, goes, true).event
    {
      var recipients := EventRecipients(event, mailbox);
      if mailbox == "" || recipients == [] || native {
        return event, event;
      }
      r := SendAndRecord(event, goes);
      stored := if writes then r else event;
    }

    method Advance(current: Event, merged: Event, timeLocChanged: bool) returns (r: Event)
      requires timeLocChanged == SignificantChange(current, merged)
      ensures r == Revision(mailbox, current, merged)
    {
      r := merged.(sequence := (current.sequence + 1) % TWO64);
      if timeLocChanged {
        var reset := RewriteAttendees(r.participants, Reset(mailbox));
        r := r.(participants := reset);
      }
    }

    method CarryOut(current: Event, merged: Event, removed: seq<Attendee>, timeLocChanged: bool, added: bool,
                    cancelGoes: bool, requestGoes: bool)
      returns (r: Event)
      requires timeLocChanged == SignificantChange(current, merged)
      modifies this
      ensures var o := Consequences(mailbox, current, merged, removed, timeLocChanged || added, cancelGoes, requestGoes);
              r == o.event && outbox == old(outbox) + o.posted
    {
      if removed == [] && !timeLocChanged && !added {
        return merged;
      }
      SendCancelTo(current, removed, cancelGoes);
      r := Advance(current, merged, timeLocChanged);
      if timeLocChanged || added {
        ghost var revision := r;
        r := SendAndRecord(r, requestGoes);
        Appended(old(outbox), Cancels(current, mailbox, removed, cancelGoes), Mailed(mailbox, revision, requestGoes).posted);
      }
    }

    method ReinviteOnUpdate(current: Event, merged: Event, cancelGoes: bool, requestGoes: bool) returns (r: Event)
      modifies this
      ensures var o := Reinvited(mailbox, native, current, merged, cancelGoes, requestGoes);
              r == o.event && outbox == old(outbox) + o.posted
    {
      if mailbox == "" || native {
        return merged;
      }
      var removed := RemovedRecipients(current, merged, mailbox);
      var added := RosterAdded(current, merged, mailbox);
      r := CarryOut(current, merged, removed, SignificantChange(current, merged), added, cancelGoes, requestGoes);
    }
  }
}
