/** What stays on the stored event after a meeting was mailed: internal/server/calendar_write.go
    stamps the organizer and the delivery status, and resets the answers of a significant change. */
module Bookkeeping {
  import opened Wrappers
  import opened Sequences
  import opened Decimal
  import opened Participants
  import opened RosterLaws
  import opened Invitations
  import opened Scheduling
  import opened Addressees

  predicate Is(p: Participant, mailbox: string) { EqualFold(ParticipantEmail(p), mailbox) }

  ghost predicate HasOrganizer(m: Roster, mailbox: string) { Organizer(m).Some? && Is(Organizer(m).value, mailbox) }

  // ---- The organizer that is stored ----

  lemma WithOrganizerOwners(m: Roster, mailbox: string)
    ensures NoOwners(Attendees(m)) ==> HasOrganizer(WithOrganizer(m, mailbox), mailbox)
    ensures forall p :: p in Attendees(WithOrganizer(m, mailbox)) <==> p in Attendees(m)
    ensures multiset(Attendees(WithOrganizer(m, mailbox))) == multiset(Attendees(m))
    ensures Organizer(WithOrganizer(m, mailbox)).Some?
  {
    if !HasOrganizer(m, mailbox) {
      var organizer := NewParticipant("", mailbox, "", Owner);
      ReadHaveRole(m, SortedKeys(m.Keys), AttendeeRole);
      WrittenAddresses(m, Some(organizer), Attendees(m));
      WrittenRosterIsRead(m, Some(organizer), Attendees(m));
      WrittenOrganizer(m, Some(organizer), Attendees(m));
      if !NoOwners(Attendees(m)) {
        var i := FirstOwner(Attendees(m));
        assert FirstOwnerAt(Attendees(m), i);
      }
    }
  }

  lemma StampedOrganizerIff(w: Roster, mailbox: string, status: string)
    requires Organizer(w).Some? && (NoOwners(Attendees(w)) ==> HasOrganizer(w, mailbox))
    ensures HasOrganizer(EachAttendee(w, Stamp(mailbox, status)), mailbox) <==>
            forall i :: FirstOwnerAt(Attendees(w), i) ==> Is(Attendees(w)[i], mailbox)
  {
    EachAttendeeOrganizer(w, Stamp(mailbox, status));
    if !NoOwners(Attendees(w)) {
      var i := FirstOwner(Attendees(w));
      assert FirstOwnerAt(Attendees(w), i);
      OnlyOneFirst(Attendees(w), i);
    }
  }

  /** The outcome names the mailbox as organizer exactly when the first owner among the attendees it
      writes back, if there is one, has the mailbox's address. */
  lemma RecordedOrganizerIff(m: Roster, mailbox: string, status: string)
    ensures var written := Attendees(WithOrganizer(m, mailbox));
            HasOrganizer(Recorded(m, mailbox, status), mailbox) <==>
            forall i :: FirstOwnerAt(written, i) ==> Is(written[i], mailbox)
  {
    WithOrganizerOwners(m, mailbox);
    StampedOrganizerIff(WithOrganizer(m, mailbox), mailbox, status);
  }

  lemma OnlyOneFirst(ps: seq<Participant>, i: int)
    requires FirstOwnerAt(ps, i)
    ensures forall j :: FirstOwnerAt(ps, j) ==> j == i
  {
    forall j | FirstOwnerAt(ps, j) ensures j == i {
      LessTotal(AttendeeKey(i), AttendeeKey(j));
    }
  }

  /** So it does when every owner among the attendees is the mailbox (there may be none), and does not
      when some attendee is an owner and none of those is the mailbox. */
  lemma RecordedOrganizer(m: Roster, mailbox: string, status: string)
    ensures (forall p :: p in Attendees(m) && Owner in p.roles ==> Is(p, mailbox)) ==> HasOrganizer(Recorded(m, mailbox, status), mailbox)
    ensures !NoOwners(Attendees(m)) && (forall p :: p in Attendees(m) && Owner in p.roles ==> !Is(p, mailbox)) ==>
              !HasOrganizer(Recorded(m, mailbox, status), mailbox)
  {
    var written := Attendees(WithOrganizer(m, mailbox));
    RecordedOrganizerIff(m, mailbox, status);
    WithOrganizerOwners(m, mailbox);
    forall i | FirstOwnerAt(written, i) ensures written[i] in Attendees(m) {
      assert written[i] in written;
    }
    if !NoOwners(Attendees(m)) {
      var i := FirstOwner(written);
      assert FirstOwnerAt(written, i);
    }
  }

  ghost predicate LeastOwner(ps: seq<Participant>, i: int) {
    0 <= i < |ps| && Owner in ps[i].roles && forall j :: 0 <= j < i ==> Owner !in ps[j].roles
  }

  lemma LeastIsFirst(ps: seq<Participant>, i: int)
    requires |ps| <= 9
    ensures FirstOwnerAt(ps, i) <==> LeastOwner(ps, i)
  {
    if 0 <= i < |ps| {
      forall j | 0 <= j < |ps| && j != i ensures Less(AttendeeKey(i), AttendeeKey(j)) <==> i < j {
        LessPrefixed('a', Format(i + 1), Format(j + 1));
        LessPrefixed('a', Format(j + 1), Format(i + 1));
        LessTotal(AttendeeKey(i), AttendeeKey(j));
      }
    }
  }

  lemma NineWrittenBack(m: Roster, mailbox: string)
    requires |Attendees(m)| <= 9
    ensures Attendees(WithOrganizer(m, mailbox)) == Attendees(m)
  {
    WithOrganizerOwners(m, mailbox);
    if !HasOrganizer(m, mailbox) {
      if Attendees(m) == [] {
        var read := Attendees(WithOrganizer(m, mailbox));
        assert |read| == |multiset(read)| == 0;
      } else {
        ReadHaveRole(m, SortedKeys(m.Keys), AttendeeRole);
        NineKeepTheirOrder(m, Some(NewParticipant("", mailbox, "", Owner)), Attendees(m));
      }
    }
  }

  /** For up to nine attendees: exactly when the first of them that is an owner, in their order, is the
      mailbox. */
  lemma RecordedOrganizerOfNineIff(m: Roster, mailbox: string, status: string)
    requires |Attendees(m)| <= 9
    ensures HasOrganizer(Recorded(m, mailbox, status), mailbox) <==>
            forall i :: LeastOwner(Attendees(m), i) ==> Is(Attendees(m)[i], mailbox)
  {
    var ps := Attendees(m);
    RecordedOrganizerIff(m, mailbox, status);
    NineWrittenBack(m, mailbox);
    forall i ensures FirstOwnerAt(ps, i) <==> LeastOwner(ps, i) {
      LeastIsFirst(ps, i);
    }
  }

  lemma OneKey(k: string, p: Participant)
    ensures SortedKeys((map[k := p]).Keys) == [k]
    ensures p.roles == {Owner, AttendeeRole} ==> Attendees(map[k := p]) == [p] && Organizer(map[k := p]) == Some(p)
  {
    var m: Roster := map[k := p];
    LessTotal(k, k);
    AscendingUnique(SortedKeys(m.Keys), [k]);
    assert [k][1..] == [] && WithRole(m, [], AttendeeRole) == WithRole(m, [], Owner) == [];
    if p.roles == {Owner, AttendeeRole} {
      assert WithRole(m, [k], AttendeeRole) == [p] + [];
      assert WithRole(m, [k], Owner) == [p] + [];
    }
  }

  /** The one attendee who is organizer too, with an address other than the mailbox: the mailbox is on
      nobody, and the attendee is listed twice, once without the status. */
  lemma DoubleRoleKeepsMailboxOut(p: Participant, mailbox: string, status: string)
    requires p.roles == {Owner, AttendeeRole} && !Is(p, mailbox)
    ensures var m: Roster := map["a1" := p];
            && Recorded(m, mailbox, status) == map["a1" := Stamp(mailbox, status)(p), "organizer" := p]
            && !HasOrganizer(Recorded(m, mailbox, status), mailbox)
  {
    var m: Roster := map["a1" := p];
    OneKey("a1", p);
    assert p in Attendees(m);
    RecordedOrganizer(m, mailbox, status);
    var organizer, stamped := NewParticipant("", mailbox, "", Owner), Stamp(mailbox, status)(p);
    var w := SetOrganizerAttendees(m, Some(organizer), [p]);
    OneAttendeeRead(m, organizer, p);
    assert Rewritten(w, Stamp(mailbox, status)) == [stamped];
    OneAttendeeKeyed(w, p, stamped);
  }

  lemma OneAttendeeKeyed(m: Roster, organizer: Participant, p: Participant)
    ensures SetOrganizerAttendees(m, Some(organizer), [p]) == map["a1" := p, "organizer" := organizer]
  {
    assert [p][..0] == [] && AttendeeKey(0) == "a1" && Keyed([]) == map[];
    assert Keyed([p]) == map["a1" := p];
  }

  lemma OneAttendeeRead(m: Roster, organizer: Participant, p: Participant)
    requires p.roles == {Owner, AttendeeRole} && organizer.roles == {Owner}
    ensures var w := SetOrganizerAttendees(m, Some(organizer), [p]); Organizer(w) == Some(p) && Attendees(w) == [p]
  {
    assert FirstOwnerAt([p], 0);
    OwnerSortsFirst(m, Some(organizer), [p], 0);
    NineKeepTheirOrder(m, Some(organizer), [p]);
  }

  // ---- The attendees that are stored ----

  lemma MappedPermuted<T>(a: seq<Participant>, b: seq<Participant>, f: Participant -> T)
    requires multiset(a) == multiset(b)
    ensures multiset(Map(a, f)) == multiset(Map(b, f))
  {
    CollectPermuted(a, b, (p: Participant) => Some(f(p)));
    CollectIsMap(a, f);
    CollectIsMap(b, f);
  }

  lemma {:induction false} CollectIsMap<T>(ps: seq<Participant>, f: Participant -> T)
    ensures Collect(ps, (p: Participant) => Some(f(p))) == Map(ps, f)
  {
    if ps != [] {
      CollectIsMap(ps[1..], f);
    }
  }

  /** How many attendees eachAttendee leaves: one more when it puts back an organizer who is one. */
  lemma EachAttendeeSize(m: Roster, f: Participant -> Participant)
    requires KeepsRoles(f)
    ensures |Attendees(EachAttendee(m, f))| == |Attendees(m)| + if NoAttendeeOrganizer(Organizer(m)) then 0 else 1
  {
    var before, after, organizer := Attendees(m), Rewritten(m, f), Organizer(m);
    ReadHaveRole(m, SortedKeys(m.Keys), AttendeeRole);
    forall p | p in after ensures IsAttendee(p) {
      var i :| 0 <= i < |after| && after[i] == p;
      assert before[i] in before;
    }
    if organizer.Some? || after != [] {
      ReadBack(m, organizer, after, AttendeeRole);
      HavingAll(after, AttendeeRole);
      var listed := after + (if organizer.Some? && AttendeeRole in organizer.value.roles then [organizer.value] else []);
      var read := Attendees(EachAttendee(m, f));
      assert |read| == |multiset(read)| == |multiset(listed)| == |listed|;
    }
  }

  /** No attendee is an owner, or the organizer is the mailbox and no attendee. */
  ghost predicate OrganizerApart(m: Roster, mailbox: string) {
    NoOwners(Attendees(m)) || (HasOrganizer(m, mailbox) && !IsAttendee(Organizer(m).value))
  }

  lemma NoOwnersMeansApart(m: Roster)
    requires NoOwners(Attendees(m))
    ensures NoAttendeeOrganizer(Organizer(m))
  {
    OrganizerIsOwner(m);
    if Organizer(m).Some? && AttendeeRole in Organizer(m).value.roles {
      OrganizerListed(m);
    }
  }

  lemma ApartIff(m: Roster, mailbox: string)
    ensures NoAttendeeOrganizer(Organizer(WithOrganizer(m, mailbox))) <==> OrganizerApart(m, mailbox)
  {
    var w := WithOrganizer(m, mailbox);
    WithOrganizerOwners(m, mailbox);
    if NoOwners(Attendees(m)) {
      NoOwnersMeansApart(w);
    } else if !HasOrganizer(m, mailbox) {
      var i := FirstOwner(Attendees(m));
      ReadHaveRole(m, SortedKeys(m.Keys), AttendeeRole);
      WrittenOrganizer(m, Some(NewParticipant("", mailbox, "", Owner)), Attendees(m));
      assert Organizer(w) == Some(Attendees(m)[i]) && Attendees(m)[i] in Attendees(m);
    }
  }

  lemma StampedRosterIff(w: Roster, ps: seq<Participant>, mailbox: string, status: string)
    requires multiset(Attendees(w)) == multiset(ps)
    ensures multiset(Attendees(EachAttendee(w, Stamp(mailbox, status)))) == multiset(Map(ps, Stamp(mailbox, status)))
            <==> NoAttendeeOrganizer(Organizer(w))
    ensures |Attendees(EachAttendee(w, Stamp(mailbox, status)))| == |ps| + if NoAttendeeOrganizer(Organizer(w)) then 0 else 1
  {
    EachAttendeeRewritesRoster(w, Stamp(mailbox, status));
    EachAttendeeSize(w, Stamp(mailbox, status));
    assert Rewritten(w, Stamp(mailbox, status)) == Map(Attendees(w), Stamp(mailbox, status));
    MappedPermuted(Attendees(w), ps, Stamp(mailbox, status));
    assert |Attendees(w)| == |multiset(Attendees(w))| == |multiset(ps)| == |ps|;
  }

  /** The outcome stamps exactly the roster, nobody twice, exactly when the organizer is apart. */
  lemma RecordedRosterIff(m: Roster, mailbox: string, status: string)
    ensures multiset(Attendees(Recorded(m, mailbox, status))) == multiset(Map(Attendees(m), Stamp(mailbox, status)))
            <==> OrganizerApart(m, mailbox)
    ensures !OrganizerApart(m, mailbox) ==> |Attendees(Recorded(m, mailbox, status))| == |Attendees(m)| + 1
  {
    WithOrganizerOwners(m, mailbox);
    ApartIff(m, mailbox);
    StampedRosterIff(WithOrganizer(m, mailbox), Attendees(m), mailbox, status);
  }

  /** An attendee q of the merged event as it is stored: recipients carry the delivery status, and
      owe a new answer when the change was significant; others are untouched. */
  function Kept(mailbox: string, significant: bool, status: string, q: Participant): Participant {
    if !IsRecipient(ParticipantEmail(q), mailbox) then q
    else q.(partStat := if significant then "needs-action" else q.partStat, scheduleStatus := [status])
  }

  function KeptBy(mailbox: string, significant: bool, status: string): Participant -> Participant {
    (q: Participant) => Kept(mailbox, significant, status, q)
  }

  lemma KeptIsBoth(mailbox: string, status: string, q: Participant)
    ensures Kept(mailbox, true, status, q) == Stamp(mailbox, status)(Reset(mailbox)(q))
    ensures Kept(mailbox, false, status, q) == Stamp(mailbox, status)(q)
  {
    var r := Reset(mailbox)(q);
    assert ParticipantEmail(r) == ParticipantEmail(q);
  }

  lemma KeptMapped(ps: seq<Participant>, mailbox: string, status: string)
    ensures Map(ps, KeptBy(mailbox, true, status)) == Map(Map(ps, Reset(mailbox)), Stamp(mailbox, status))
    ensures Map(ps, KeptBy(mailbox, false, status)) == Map(ps, Stamp(mailbox, status))
  {
    forall i | 0 <= i < |ps|
      ensures KeptBy(mailbox, true, status)(ps[i]) == Stamp(mailbox, status)(Reset(mailbox)(ps[i]))
      ensures KeptBy(mailbox, false, status)(ps[i]) == Stamp(mailbox, status)(ps[i])
    {
      KeptIsBoth(mailbox, status, ps[i]);
    }
  }

  /** Resetting the answers keeps an owner among the attendees. */
  lemma ResetKeepsOwners(m: Roster, f: Participant -> Participant)
    requires KeepsRoles(f)
    ensures NoOwners(Attendees(EachAttendee(m, f))) <==> NoOwners(Attendees(m))
    ensures NoOwners(Attendees(m)) ==> multiset(Attendees(EachAttendee(m, f))) == multiset(Map(Attendees(m), f))
    ensures !NoOwners(Attendees(m)) ==> Organizer(EachAttendee(m, f)).Some? && IsAttendee(Organizer(EachAttendee(m, f)).value)
  {
    var after, read := Rewritten(m, f), Attendees(EachAttendee(m, f));
    RewrittenOwners(m, f);
    EachAttendeeOrganizer(m, f);
    if NoOwners(Attendees(m)) {
      NoOwnersMeansApart(m);
      EachAttendeeRewritesRoster(m, f);
      assert after == Map(Attendees(m), f);
      forall p | p in read ensures Owner !in p.roles {
        assert p in multiset(read);
        assert p in multiset(after);
      }
    } else {
      var i := FirstOwner(Attendees(m));
      ReadHaveRole(m, SortedKeys(m.Keys), AttendeeRole);
      assert Attendees(m)[i] in Attendees(m) && FirstOwnerAt(Attendees(m), i);
      OrganizerListed(EachAttendee(m, f));
      OrganizerIsOwner(EachAttendee(m, f));
    }
  }

  lemma ResetAndRecorded(m: Roster, mailbox: string, status: string)
    ensures multiset(Attendees(Recorded(EachAttendee(m, Reset(mailbox)), mailbox, status))) ==
            multiset(Map(Map(Attendees(m), Reset(mailbox)), Stamp(mailbox, status)))
            <==> NoOwners(Attendees(m))
  {
    var reset := EachAttendee(m, Reset(mailbox));
    ResetKeepsOwners(m, Reset(mailbox));
    RecordedRosterIff(reset, mailbox, status);
    EachAttendeeSize(m, Reset(mailbox));
    var stored, mapped := Attendees(Recorded(reset, mailbox, status)), Map(Map(Attendees(m), Reset(mailbox)), Stamp(mailbox, status));
    if NoOwners(Attendees(m)) {
      MappedPermuted(Attendees(reset), Map(Attendees(m), Reset(mailbox)), Stamp(mailbox, status));
    } else {
      assert |stored| > |mapped|;
      assert |multiset(stored)| == |stored| && |multiset(mapped)| == |mapped|;
    }
  }

  /** When the stored roster is the merged one, each attendee once. */
  ghost predicate BooksBalance(m: Roster, mailbox: string, significant: bool) {
    if significant then NoOwners(Attendees(m)) else OrganizerApart(m, mailbox)
  }

  lemma RevisionRosterIff(mailbox: string, current: Event, merged: Event, goes: bool)
    ensures var o := Mailed(mailbox, Revision(mailbox, current, merged), goes);
            var significant := SignificantChange(current, merged);
            multiset(Attendees(o.event.participants)) ==
            multiset(Map(Attendees(merged.participants), KeptBy(mailbox, significant, Status(o.posted)))) <==>
            BooksBalance(merged.participants, mailbox, significant)
  {
    var status := Status(Requests(Revision(mailbox, current, merged), mailbox, goes));
    KeptMapped(Attendees(merged.participants), mailbox, status);
    if SignificantChange(current, merged) {
      ResetAndRecorded(merged.participants, mailbox, status);
    } else {
      RecordedRosterIff(merged.participants, mailbox, status);
    }
  }

  lemma ResendsIs(current: Event, merged: Event, mailbox: string)
    ensures Resends(current, merged, mailbox) <==> SignificantChange(current, merged) || Added(current, merged, mailbox)
  {
    RecipientsAre(current, mailbox);
    RecipientsAre(merged, mailbox);
  }

  /** A PATCH that re-invites stores each attendee of the merged event once, recipients with the
      delivery status and, after a significant change, with a pending answer, exactly when no attendee
      is an owner; for a change that is not significant, also when the organizer is the mailbox and
      no attendee. */
  lemma PatchKeepsBooks(mailbox: string, current: Event, merged: Event, cancelGoes: bool, requestGoes: bool)
    requires mailbox != "" && Resends(current, merged, mailbox)
    ensures var o := Reinvited(mailbox, false, current, merged, cancelGoes, requestGoes);
            var significant := SignificantChange(current, merged);
            var status := Status(PatchRequests(mailbox, current, merged, requestGoes));
            multiset(Attendees(o.event.participants)) ==
            multiset(Map(Attendees(merged.participants), KeptBy(mailbox, significant, status))) <==>
            BooksBalance(merged.participants, mailbox, significant)
  {
    RevisionRosterIff(mailbox, current, merged, requestGoes);
    ResendsIs(current, merged, mailbox);
  }

  /** And it stores the mailbox as organizer exactly when the first owner among the attendees it writes
      back, if there is one, is the mailbox. */
  lemma PatchStampsOrganizerIff(mailbox: string, current: Event, merged: Event, cancelGoes: bool, requestGoes: bool)
    requires mailbox != "" && Resends(current, merged, mailbox)
    ensures var o := Reinvited(mailbox, false, current, merged, cancelGoes, requestGoes);
            var written := Attendees(WithOrganizer(Revision(mailbox, current, merged).participants, mailbox));
            HasOrganizer(o.event.participants, mailbox) <==> forall i :: FirstOwnerAt(written, i) ==> Is(written[i], mailbox)
  {
    ResendsIs(current, merged, mailbox);
    var revision := Revision(mailbox, current, merged);
    RecordedOrganizerIff(revision.participants, mailbox, Status(Requests(revision, mailbox, requestGoes)));
  }

  // ---- Invitation to event and back ----

  predicate KnownPartStat(a: Attendee) { PartStatToJSCal(a.partStat) != "" || a.partStat == "" }

  lemma PartStatKept(s: string)
    ensures JsCalToPartStat(PartStatToJSCal(s)) == s <==> s in {"ACCEPTED", "DECLINED", "TENTATIVE", "NEEDS-ACTION", ""}
  {
  }

  lemma {:induction false} MappedBack(attendees: seq<Attendee>)
    requires forall a :: a in attendees ==> KnownPartStat(a)
    ensures Map(Map(attendees, ParticipantOf), AttendeeOf) == attendees
  {
    forall i | 0 <= i < |attendees| ensures AttendeeOf(ParticipantOf(attendees[i])) == attendees[i] {
      assert attendees[i] in attendees;
      PartStatKept(attendees[i].partStat);
    }
  }

  lemma StoredRoster(inv: Invite)
    requires inv.attendees != []
    ensures multiset(Attendees(EventFromInvite(inv).participants)) == multiset(Map(inv.attendees, ParticipantOf))
  {
    WrittenRosterIsRead(map[], OrganizerOf(inv.organizer), Map(inv.attendees, ParticipantOf));
  }

  /** The attendees of an invitation survive being stored as an event, as a multiset and with
      their answers, when every answer is one the calendar knows. */
  lemma StoredInviteKeepsAttendees(inv: Invite)
    requires inv.attendees != [] && forall a :: a in inv.attendees ==> KnownPartStat(a)
    ensures multiset(InviteFromEvent(EventFromInvite(inv)).attendees) == multiset(inv.attendees)
  {
    StoredRoster(inv);
    MappedPermuted(Attendees(EventFromInvite(inv).participants), Map(inv.attendees, ParticipantOf), AttendeeOf);
    MappedBack(inv.attendees);
  }
}
