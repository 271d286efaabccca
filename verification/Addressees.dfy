/** Who hears about a patched meeting: internal/server/calendar_write.go sends the CANCEL to
    exactly the dropped recipients and the REQUEST to exactly those who remain. */
module Addressees {
  import opened Wrappers
  import opened Sequences
  import opened Participants
  import opened RosterLaws
  import opened Invitations
  import opened Scheduling

  ghost function AddressSet(m: Roster): set<Address> { set p | p in Attendees(m) :: AddressOf(p) }

  ghost function RecipientSet(m: Roster, mailbox: string): set<Address> {
    set a | a in AddressSet(m) && IsRecipient(a.email, mailbox)
  }

  function Lowered(addresses: set<Address>): set<string> { set a | a in addresses :: ToLower(a.email) }

  ghost predicate KeepsIdentity(f: Participant -> Participant) {
    forall p :: f(p).roles == p.roles && AddressOf(f(p)) == AddressOf(p)
  }

  lemma {:induction false} RoleIsRead(m: Roster, keys: seq<string>, k: string, role: Role)
    requires (forall x :: x in keys ==> x in m) && k in keys && role in m[k].roles
    ensures m[k] in WithRole(m, keys, role)
  {
    if keys[0] != k {
      RoleIsRead(m, keys[1..], k, role);
    }
  }

  /** An organizer who is an attendee too is in the roster. */
  lemma OrganizerListed(m: Roster)
    requires Organizer(m).Some? && AttendeeRole in Organizer(m).value.roles
    ensures Organizer(m).value in Attendees(m)
  {
    var keys := SortedKeys(m.Keys);
    ReadHaveRole(m, keys, Owner);
    var owners := WithRole(m, keys, Owner);
    assert owners[0] in owners;
    var k :| k in keys && m[k] == owners[0];
    RoleIsRead(m, keys, k, AttendeeRole);
  }

  lemma WrittenAddresses(m: Roster, organizer: Option<Participant>, attendees: seq<Participant>)
    requires organizer.Some? || attendees != []
    requires forall p :: p in attendees ==> IsAttendee(p)
    ensures forall p :: p in Attendees(SetOrganizerAttendees(m, organizer, attendees)) <==>
                        p in attendees || (organizer == Some(p) && IsAttendee(p))
  {
    ReadBack(m, organizer, attendees, AttendeeRole);
    HavingAll(attendees, AttendeeRole);
    var extra := if organizer.Some? && AttendeeRole in organizer.value.roles then [organizer.value] else [];
    var read := Attendees(SetOrganizerAttendees(m, organizer, attendees));
    forall p ensures p in read <==> p in attendees || p in extra {
      assert p in read <==> p in multiset(read);
      assert p in attendees + extra <==> p in multiset(attendees + extra);
    }
  }

  /** Rewriting the roster in place changes no address on it, whoever the organizer is. */
  lemma EachAttendeeKeepsAddresses(m: Roster, f: Participant -> Participant)
    requires KeepsIdentity(f)
    ensures AddressSet(EachAttendee(m, f)) == AddressSet(m)
  {
    var before, after, organizer := Attendees(m), Rewritten(m, f), Organizer(m);
    ReadHaveRole(m, SortedKeys(m.Keys), AttendeeRole);
    forall i | 0 <= i < |after| ensures IsAttendee(after[i]) && AddressOf(after[i]) == AddressOf(before[i]) {
      assert before[i] in before;
    }
    if organizer.Some? || after != [] {
      WrittenAddresses(m, organizer, after);
      if organizer.Some? && AttendeeRole in organizer.value.roles {
        OrganizerListed(m);
      }
      SameAddresses(before, after, Attendees(EachAttendee(m, f)), organizer);
    }
  }

  lemma SameAddresses(before: seq<Participant>, after: seq<Participant>, read: seq<Participant>, organizer: Option<Participant>)
    requires |before| == |after| && forall i :: 0 <= i < |after| ==> AddressOf(after[i]) == AddressOf(before[i])
    requires forall p :: p in read <==> p in after || (organizer == Some(p) && IsAttendee(p))
    requires organizer.Some? && IsAttendee(organizer.value) ==> organizer.value in before
    ensures (set p | p in read :: AddressOf(p)) == (set p | p in before :: AddressOf(p))
  {
    forall p | p in read ensures exists q :: q in before && AddressOf(q) == AddressOf(p) {
      if p in after {
        var i :| 0 <= i < |after| && after[i] == p;
        assert before[i] in before;
      }
    }
    forall q | q in before ensures exists p :: p in read && AddressOf(p) == AddressOf(q) {
      var i :| 0 <= i < |before| && before[i] == q;
      assert after[i] in read;
    }
  }

  lemma RecordedKeepsAddresses(m: Roster, mailbox: string, status: string)
    ensures AddressSet(Recorded(m, mailbox, status)) == AddressSet(m)
  {
    var stamped := WithOrganizer(m, mailbox);
    if stamped != m {
      ReadHaveRole(m, SortedKeys(m.Keys), AttendeeRole);
      WrittenAddresses(m, Some(NewParticipant("", mailbox, "", Owner)), Attendees(m));
    }
    assert AddressSet(stamped) == AddressSet(m);
    EachAttendeeKeepsAddresses(stamped, Stamp(mailbox, status));
  }

  lemma RevisionKeepsAddresses(mailbox: string, current: Event, merged: Event)
    ensures RecipientSet(Revision(mailbox, current, merged).participants, mailbox) == RecipientSet(merged.participants, mailbox)
  {
    EachAttendeeKeepsAddresses(merged.participants, Reset(mailbox));
    assert AddressSet(Revision(mailbox, current, merged).participants) == AddressSet(merged.participants);
  }

  // ---- Recipients ----

  lemma RecipientListed(e: Event, mailbox: string, a: Attendee)
    requires a in Recipients(e, mailbox)
    ensures a.address in RecipientSet(e.participants, mailbox)
  {
    var ps := Attendees(e.participants);
    var all := Map(ps, AttendeeOf);
    FilterElements(all, Receives(mailbox));
    var i :| 0 <= i < |all| && all[i] == a;
    assert ps[i] in ps;
  }

  lemma ListedReceives(e: Event, mailbox: string, x: Address) returns (a: Attendee)
    requires x in RecipientSet(e.participants, mailbox)
    ensures a in Recipients(e, mailbox) && a.address == x
  {
    var ps := Attendees(e.participants);
    var all := Map(ps, AttendeeOf);
    FilterElements(all, Receives(mailbox));
    var p :| p in ps && AddressOf(p) == x;
    var i :| 0 <= i < |ps| && ps[i] == p;
    a := all[i];
  }

  lemma SameFolded(rs: seq<Attendee>, xs: set<Address>)
    requires forall a :: a in rs ==> a.address in xs
    requires forall x :: x in xs ==> exists a :: a in rs && a.address == x
    ensures Folded(rs) == Lowered(xs)
    ensures rs == [] <==> xs == {}
  {
    assert rs != [] ==> rs[0] in rs;
  }

  lemma RecipientsAre(e: Event, mailbox: string)
    ensures forall a :: a in Recipients(e, mailbox) ==> a.address in RecipientSet(e.participants, mailbox)
    ensures forall x :: x in RecipientSet(e.participants, mailbox) ==> exists a :: a in Recipients(e, mailbox) && a.address == x
    ensures Folded(Recipients(e, mailbox)) == Lowered(RecipientSet(e.participants, mailbox))
    ensures Recipients(e, mailbox) == [] <==> RecipientSet(e.participants, mailbox) == {}
  {
    forall a | a in Recipients(e, mailbox) ensures a.address in RecipientSet(e.participants, mailbox) {
      RecipientListed(e, mailbox, a);
    }
    forall x | x in RecipientSet(e.participants, mailbox) ensures exists a :: a in Recipients(e, mailbox) && a.address == x {
      var a := ListedReceives(e, mailbox, x);
    }
    SameFolded(Recipients(e, mailbox), RecipientSet(e.participants, mailbox));
  }

  ghost function Addressees(p: Posted): set<string> { set x | x in p.rcpt :: ToLower(x) }

  lemma {:induction false} AllMailed(attendees: seq<Attendee>, mail: Mail)
    requires forall a :: a in attendees ==> a.address.email != ""
    ensures Addressees(Posted(Emails(attendees), mail)) == Folded(attendees)
  {
    var pick := (a: Attendee) => if a.address.email == "" then None else Some(a.address.email);
    CollectElements(attendees, pick);
    forall a | a in attendees ensures a.address.email in Emails(attendees) {
      assert pick(a) == Some(a.address.email);
    }
  }

  lemma AllHaveEmails(attendees: seq<Attendee>)
    requires forall a :: a in attendees ==> a.address.email != ""
    ensures attendees != [] ==> Emails(attendees) != []
  {
    if attendees != [] {
      assert attendees[0] in attendees;
    }
  }

  /** The recipients the current event has and the merged one lacks. */
  ghost function DroppedSet(current: Event, merged: Event, mailbox: string): set<string> {
    Lowered(RecipientSet(current.participants, mailbox)) - Lowered(RecipientSet(merged.participants, mailbox))
  }

  lemma OutsideAre(had: seq<Attendee>, keep: set<string>)
    ensures var out := Filter(had, OutsideOf(keep));
            Folded(out) == Folded(had) - keep && (out == [] <==> Folded(had) - keep == {}) && forall a :: a in out ==> a in had
  {
    var out := Filter(had, OutsideOf(keep));
    FilterElements(had, OutsideOf(keep));
    assert out != [] ==> out[0] in out && ToLower(out[0].address.email) in Folded(out);
  }

  lemma RemovedAre(current: Event, merged: Event, mailbox: string)
    ensures Folded(Removed(current, merged, mailbox)) == DroppedSet(current, merged, mailbox)
    ensures Removed(current, merged, mailbox) == [] <==> DroppedSet(current, merged, mailbox) == {}
    ensures forall a :: a in Removed(current, merged, mailbox) ==> a.address.email != ""
  {
    RecipientsAre(current, mailbox);
    RecipientsAre(merged, mailbox);
    OutsideAre(Recipients(current, mailbox), Folded(Recipients(merged, mailbox)));
    forall a | a in Recipients(current, mailbox) ensures a.address.email != "" {
      RecipientListed(current, mailbox, a);
    }
  }

  lemma CancelsGoTo(current: Event, merged: Event, mailbox: string, goes: bool)
    requires mailbox != ""
    ensures var posted := Cancels(current, mailbox, Removed(current, merged, mailbox), goes);
            && (posted != [] <==> DroppedSet(current, merged, mailbox) != {} && current.uid != "" && goes)
            && |posted| <= 1
            && forall p :: p in posted ==> p.mail.kind == CANCEL && p.mail.uid == current.uid
                                           && p.mail.sequence == ToInt64(current.sequence)
                                           && Addressees(p) == DroppedSet(current, merged, mailbox)
  {
    RemovedAre(current, merged, mailbox);
    var removed := Removed(current, merged, mailbox);
    OrganizerHasEmail(current, mailbox);
    if Cancel(Addressed(current, mailbox, removed)).Ok? {
      AllMailed(removed, Cancel(Addressed(current, mailbox, removed)).value);
      AllHaveEmails(removed);
    }
  }

  lemma OrganizerHasEmail(e: Event, mailbox: string)
    requires mailbox != ""
    ensures OrganizerFor(InviteFromEvent(e).organizer, mailbox).email != ""
    ensures EqualFold(OrganizerFor(InviteFromEvent(e).organizer, mailbox).email, mailbox)
  {
  }

  lemma RequestsGoTo(e: Event, mailbox: string, goes: bool)
    requires mailbox != ""
    ensures var posted := Requests(e, mailbox, goes);
            && (posted != [] <==> RecipientSet(e.participants, mailbox) != {} && e.uid != "" && goes)
            && |posted| <= 1
            && forall p :: p in posted ==> p.mail.kind == REQUEST && p.mail.uid == e.uid
                                           && p.mail.sequence == ToInt64(e.sequence)
                                           && Addressees(p) == Lowered(RecipientSet(e.participants, mailbox))
  {
    RecipientsAre(e, mailbox);
    RequestOfIs(e, mailbox);
    if RequestOf(e, mailbox).Ok? {
      AllMailed(Recipients(e, mailbox), RequestOf(e, mailbox).value);
    }
  }

  lemma RequestOfIs(e: Event, mailbox: string)
    requires mailbox != ""
    ensures RequestOf(e, mailbox).Ok? <==> e.uid != "" && Recipients(e, mailbox) != []
    ensures var r := RequestOf(e, mailbox);
            r.Ok? ==> r.value.kind == REQUEST && r.value.uid == e.uid && r.value.sequence == ToInt64(e.sequence)
  {
    OrganizerHasEmail(e, mailbox);
  }

  /** Whether a patch re-invites: a significant change, or a recipient the current event lacks. */
  ghost predicate Resends(current: Event, merged: Event, mailbox: string) {
    SignificantChange(current, merged)
    || !(Lowered(RecipientSet(merged.participants, mailbox)) <= Lowered(RecipientSet(current.participants, mailbox)))
  }

  /** A patch mails at most one CANCEL, to exactly the dropped recipients and at the revision they
      hold, and at most one REQUEST, to exactly the merged roster and one revision up. */
  lemma PatchMailsExactly(mailbox: string, current: Event, merged: Event, cancelGoes: bool, requestGoes: bool)
    requires mailbox != ""
    ensures var posted := Reinvited(mailbox, false, current, merged, cancelGoes, requestGoes).posted;
            var kept := Lowered(RecipientSet(merged.participants, mailbox));
            && ((exists p :: p in posted && p.mail.kind == CANCEL) <==>
                DroppedSet(current, merged, mailbox) != {} && current.uid != "" && cancelGoes)
            && ((exists p :: p in posted && p.mail.kind == REQUEST) <==>
                Resends(current, merged, mailbox) && kept != {} && merged.uid != "" && requestGoes)
            && (forall p :: p in posted ==>
                  if p.mail.kind == CANCEL
                  then Addressees(p) == DroppedSet(current, merged, mailbox) && p.mail.sequence == ToInt64(current.sequence)
                  else p.mail.kind == REQUEST && Addressees(p) == kept
                       && p.mail.sequence == ToInt64((current.sequence + 1) % TWO64))
  {
    var cancels, requests := PatchCancels(mailbox, current, merged, cancelGoes), PatchRequests(mailbox, current, merged, requestGoes);
    CancelsGoTo(current, merged, mailbox, cancelGoes);
    PatchRequestsGoTo(mailbox, current, merged, requestGoes);
    PostedAre(mailbox, current, merged, cancelGoes, requestGoes);
    BothKinds(cancels, requests);
  }

  ghost function PatchCancels(mailbox: string, current: Event, merged: Event, goes: bool): seq<Posted> {
    Cancels(current, mailbox, Removed(current, merged, mailbox), goes)
  }

  ghost function PatchRequests(mailbox: string, current: Event, merged: Event, goes: bool): seq<Posted> {
    if Resends(current, merged, mailbox) then Requests(Revision(mailbox, current, merged), mailbox, goes) else []
  }

  lemma PatchRequestsGoTo(mailbox: string, current: Event, merged: Event, goes: bool)
    requires mailbox != ""
    ensures var posted, kept := PatchRequests(mailbox, current, merged, goes), Lowered(RecipientSet(merged.participants, mailbox));
            && (posted != [] <==> Resends(current, merged, mailbox) && kept != {} && merged.uid != "" && goes)
            && forall p :: p in posted ==> p.mail.kind == REQUEST && Addressees(p) == kept
                                           && p.mail.sequence == ToInt64((current.sequence + 1) % TWO64)
  {
    RevisionKeepsAddresses(mailbox, current, merged);
    RevisionIs(mailbox, current, merged);
    MaybeReach(Revision(mailbox, current, merged), merged.uid, (current.sequence + 1) % TWO64, merged.participants, mailbox, goes,
               Resends(current, merged, mailbox));
  }

  lemma RevisionIs(mailbox: string, current: Event, merged: Event)
    ensures Revision(mailbox, current, merged).uid == merged.uid
    ensures Revision(mailbox, current, merged).sequence == (current.sequence + 1) % TWO64
  {
  }

  lemma MaybeReach(e: Event, uid: string, sequence: uint64, roster: Roster, mailbox: string, goes: bool, resends: bool)
    requires mailbox != "" && RecipientSet(e.participants, mailbox) == RecipientSet(roster, mailbox)
    requires e.uid == uid && e.sequence == sequence
    ensures var posted, kept := if resends then Requests(e, mailbox, goes) else [], Lowered(RecipientSet(roster, mailbox));
            && (posted != [] <==> resends && kept != {} && uid != "" && goes)
            && forall p :: p in posted ==> p.mail.kind == REQUEST && Addressees(p) == kept && p.mail.sequence == ToInt64(sequence)
  {
    RequestsReach(e, roster, mailbox, goes);
  }

  lemma RequestsReach(e: Event, roster: Roster, mailbox: string, goes: bool)
    requires mailbox != "" && RecipientSet(e.participants, mailbox) == RecipientSet(roster, mailbox)
    ensures var posted, kept := Requests(e, mailbox, goes), Lowered(RecipientSet(roster, mailbox));
            && (posted != [] <==> kept != {} && e.uid != "" && goes)
            && forall p :: p in posted ==> p.mail.kind == REQUEST && Addressees(p) == kept && p.mail.sequence == ToInt64(e.sequence)
  {
    RequestsGoTo(e, mailbox, goes);
    NoneLowered(RecipientSet(roster, mailbox));
  }

  lemma NoneLowered(addresses: set<Address>)
    ensures Lowered(addresses) == {} <==> addresses == {}
  {
    if addresses != {} {
      var a :| a in addresses;
      assert ToLower(a.email) in Lowered(addresses);
    }
  }

  lemma BothKinds(cancels: seq<Posted>, requests: seq<Posted>)
    requires (forall p :: p in cancels ==> p.mail.kind == CANCEL) && (forall p :: p in requests ==> p.mail.kind == REQUEST)
    ensures (exists p :: p in cancels + requests && p.mail.kind == CANCEL) <==> cancels != []
    ensures (exists p :: p in cancels + requests && p.mail.kind == REQUEST) <==> requests != []
    ensures forall p :: p in cancels + requests ==> if p.mail.kind == CANCEL then p in cancels else p in requests
  {
    assert cancels != [] ==> cancels[0] in cancels + requests;
    assert requests != [] ==> requests[0] in cancels + requests;
  }

  lemma PostedAre(mailbox: string, current: Event, merged: Event, cancelGoes: bool, requestGoes: bool)
    requires mailbox != ""
    ensures Reinvited(mailbox, false, current, merged, cancelGoes, requestGoes).posted ==
            PatchCancels(mailbox, current, merged, cancelGoes) + PatchRequests(mailbox, current, merged, requestGoes)
  {
    RecipientsAre(current, mailbox);
    RecipientsAre(merged, mailbox);
    RemovedAre(current, merged, mailbox);
  }

  /** No address hears both messages of one patch, and the organizer hears neither. */
  lemma PatchMailsDisjoint(mailbox: string, current: Event, merged: Event, cancelGoes: bool, requestGoes: bool)
    requires mailbox != ""
    ensures var posted := Reinvited(mailbox, false, current, merged, cancelGoes, requestGoes).posted;
            && (forall p, q :: p in posted && q in posted && p.mail.kind != q.mail.kind ==> Addressees(p) !! Addressees(q))
            && (forall p :: p in posted ==> ToLower(mailbox) !in Addressees(p))
  {
    PatchMailsExactly(mailbox, current, merged, cancelGoes, requestGoes);
  }
}
