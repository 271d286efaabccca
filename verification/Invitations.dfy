/** internal/itip/itip.go and the property level of internal/scheduling/scheduling.go: events,
    invitations, and what an invitation becomes on its way through a mail. */
module Invitations {
  import opened Wrappers
  import opened Sequences
  import opened Participants

  const TWO63: int := 0x8000_0000_0000_0000
  const TWO64: int := 0x1_0000_0000_0000_0000

  type uint64 = n: nat | n < TWO64
  type int64 = n: int | -TWO63 <= n < TWO63 witness 0

  /** The longest whole number of seconds a time.Duration holds. */
  const MAX_SECONDS: nat := 9_223_372_036

  /** An instant is in seconds; None is Go's zero time. duration is what addDuration adds to the start:
      the offset its nominal units, its clamps and its 64-bit sum come to, which can be negative. */
  datatype Event = Event(uid: string, title: string, sequence: uint64, start: Option<int>, duration: Option<int>,
                         location: string, status: string, participants: Roster, recurrenceId: Option<int>, isOverride: bool)

  datatype Address = Address(name: string, email: string)

  datatype Attendee = Attendee(address: Address, partStat: string)

  datatype Method = REQUEST | REPLY | CANCEL | Other(name: string)

  datatype Invite = Invite(kind: Method, uid: string, recurrenceId: Option<int>, organizer: Address, attendees: seq<Attendee>,
                           summary: string, start: Option<int>, end: Option<int>, sequence: int64)

  // ---- Events and invitations ----

  function EndTime(e: Event): Option<int> {
    if e.start.None? then None
    else Some(e.start.value + (if e.duration.Some? then e.duration.value else 0))
  }

  /** durationFromGo of end minus start; the difference saturates. */
  function DurationBetween(start: int, end: int): Option<nat> {
    if end <= start then None else Some(if end - start <= MAX_SECONDS then end - start else MAX_SECONDS)
  }

  /** int(ev.Sequence): the uint64 reinterpreted as a signed integer. */
  function ToInt64(n: uint64): int64 { if n < TWO63 then n else n - TWO64 }

  function SequenceToUint(n: int64): uint64 { if n < 0 then 0 else n }

  function PartStatToJSCal(p: string): string {
    if p == "ACCEPTED" then "accepted"
    else if p == "DECLINED" then "declined"
    else if p == "TENTATIVE" then "tentative"
    else if p == "NEEDS-ACTION" then "needs-action"
    else ""
  }

  function JsCalToPartStat(s: string): string {
    if s == "accepted" then "ACCEPTED"
    else if s == "declined" then "DECLINED"
    else if s == "tentative" then "TENTATIVE"
    else if s == "needs-action" then "NEEDS-ACTION"
    else ""
  }

  function AddressOf(p: Participant): Address { Address(p.name, ParticipantEmail(p)) }

  function AttendeeOf(p: Participant): Attendee { Attendee(AddressOf(p), JsCalToPartStat(p.partStat)) }

  function ParticipantOf(a: Attendee): Participant {
    NewParticipant(a.address.name, a.address.email, PartStatToJSCal(a.partStat), AttendeeRole)
  }

  function OrganizerOf(a: Address): Option<Participant> {
    if a.email != "" || a.name != "" then Some(NewParticipant(a.name, a.email, "", Owner)) else None
  }

  function EventFromInvite(inv: Invite): Event {
    Event(inv.uid, inv.summary, SequenceToUint(inv.sequence), inv.start,
          if inv.start.None? || inv.end.None? then None else DurationBetween(inv.start.value, inv.end.value),
          "", "tentative",
          SetOrganizerAttendees(map[], OrganizerOf(inv.organizer), Map(inv.attendees, ParticipantOf)),
          inv.recurrenceId, inv.recurrenceId.Some?)
  }

  ghost function InviteFromEvent(e: Event): Invite {
    Invite(REQUEST, e.uid, e.recurrenceId,
           if Organizer(e.participants).Some? then AddressOf(Organizer(e.participants).value) else Address("", ""),
           Map(Attendees(e.participants), AttendeeOf),
           e.title, e.start, EndTime(e), ToInt64(e.sequence))
  }

  // ---- The mail ----

  /** An ORGANIZER or ATTENDEE property: value, CN parameter ("" when absent) and PARTSTAT. */
  datatype CalAddress = CalAddress(value: string, cn: string, partStat: string)

  datatype Mail = Mail(kind: Method, uid: string, sequence: int64, dtstart: Option<int>, dtend: Option<int>, summary: string,
                       recurrenceId: Option<int>, organizer: Option<CalAddress>, attendees: seq<CalAddress>)

  datatype Error = NoUid | NoOrganizer | NoAttendees | NotRequest | Unparsable | BackendFailed

  predicate IsSpace(c: char) {
    var n := c as int;
    9 <= n <= 13 || n in {0x20, 0x85, 0xA0, 0x1680, 0x2028, 0x2029, 0x202F, 0x205F, 0x3000} || 0x2000 <= n <= 0x200A
  }

  function TrimRight(s: string): string {
    if s != "" && IsSpace(s[|s| - 1]) then TrimRight(s[..|s| - 1]) else s
  }

  function TrimLeft(s: string): string {
    if s != "" && IsSpace(s[0]) then TrimLeft(s[1..]) else s
  }

  function ToLower(s: string): (r: string)
    ensures |r| == |s|
  {
    if s == "" then ""
    else (if 'A' <= s[0] <= 'Z' then [s[0] - 'A' + 'a'] else [s[0]]) + ToLower(s[1..])
  }

  function IndexOf(s: string, c: char): (i: nat)
    ensures i <= |s| && (i < |s| ==> s[i] == c) && c !in s[..i]
  {
    if s == "" || s[0] == c then 0
    else
      var i := 1 + IndexOf(s[1..], c);
      assert s[..i] == [s[0]] + s[1..][..i - 1];
      i
  }

  function ParseAddress(p: CalAddress): Address {
    var value := TrimRight(TrimLeft(p.value));
    var colon := IndexOf(value, ':');
    Address(p.cn, if colon < |value| && ToLower(value[..colon]) == "mailto" then value[colon + 1..] else value)
  }

  /** sanitizeParam: control characters and double quotes are dropped. */
  function Sanitize(name: string): string { Filter(name, (c: char) => c as int >= 0x20 && c != '\"') }

  function BuildAddress(a: Address, partStat: string): Option<CalAddress> {
    if a.email == "" then None else Some(CalAddress(MAILTO + a.email, Sanitize(a.name), partStat))
  }

  function BuildAttendee(a: Attendee): Option<CalAddress> { BuildAddress(a.address, "NEEDS-ACTION") }

  function Request(inv: Invite): Result<Mail, Error> {
    if inv.uid == "" then Err(NoUid)
    else if inv.organizer.email == "" then Err(NoOrganizer)
    else if inv.attendees == [] then Err(NoAttendees)
    else Ok(Mail(REQUEST, inv.uid, inv.sequence, inv.start, inv.end, inv.summary, inv.recurrenceId,
                 BuildAddress(inv.organizer, ""), Collect(inv.attendees, BuildAttendee)))
  }

  function BuildCancelled(a: Attendee): Option<CalAddress> { BuildAddress(a.address, "") }

  function Cancel(inv: Invite): Result<Mail, Error> {
    if inv.uid == "" then Err(NoUid)
    else if inv.organizer.email == "" then Err(NoOrganizer)
    else Ok(Mail(CANCEL, inv.uid, inv.sequence, inv.start, None, inv.summary, inv.recurrenceId,
                 BuildAddress(inv.organizer, ""), Collect(inv.attendees, BuildCancelled)))
  }

  function ParseAttendee(p: CalAddress): Option<Attendee> {
    if ParseAddress(p) == Address("", "") then None else Some(Attendee(ParseAddress(p), p.partStat))
  }

  function Parse(mail: Mail): Invite {
    Invite(mail.kind, mail.uid, mail.recurrenceId,
           if mail.organizer.Some? then ParseAddress(mail.organizer.value) else Address("", ""),
           Collect(mail.attendees, ParseAttendee),
           mail.summary, mail.dtstart, if mail.dtend.Some? then mail.dtend else mail.dtstart, mail.sequence)
  }

  // ---- What arrives ----

  /** An address after the mail: the name sanitized, trailing white space of the email gone. */
  function Carried(a: Address): Address { Address(Sanitize(a.name), TrimRight(a.email)) }

  function CarriedAttendee(a: Attendee): Option<Attendee> {
    if a.address.email == "" || Carried(a.address) == Address("", "") then None
    else Some(Attendee(Carried(a.address), "NEEDS-ACTION"))
  }

  lemma {:induction false} TrimRightKeeps(prefix: string, s: string)
    requires prefix != "" && !IsSpace(prefix[|prefix| - 1])
    ensures TrimRight(prefix + s) == prefix + TrimRight(s)
  {
    if s == "" {
      assert prefix + s == prefix;
    } else {
      assert (prefix + s)[..|prefix + s| - 1] == prefix + s[..|s| - 1];
      if IsSpace(s[|s| - 1]) {
        TrimRightKeeps(prefix, s[..|s| - 1]);
      }
    }
  }

  lemma {:induction false} FirstIndex(s: string, c: char, i: nat)
    requires i < |s| && s[i] == c && c !in s[..i]
    ensures IndexOf(s, c) == i
  {
    if i > 0 {
      assert s[0] == s[..i][0];
      assert s[..i][1..] == s[1..][..i - 1];
      FirstIndex(s[1..], c, i - 1);
    }
  }

  lemma AddressCarried(a: Address, partStat: string)
    requires a.email != ""
    ensures ParseAddress(BuildAddress(a, partStat).value) == Carried(a)
  {
    var value := MAILTO + a.email;
    assert TrimLeft(value) == value;
    TrimRightKeeps(MAILTO, a.email);
    var trimmed := MAILTO + TrimRight(a.email);
    assert trimmed[..6] == "mailto";
    FirstIndex(trimmed, ':', 6);
    assert trimmed[..6] == "mailto" && trimmed[7..] == TrimRight(a.email);
    LowerMailto();
  }

  lemma LowerMailto()
    ensures ToLower("mailto") == "mailto"
  {
    assert "mailto"[1..] == "ailto" && "ailto"[1..] == "ilto" && "ilto"[1..] == "lto" && "lto"[1..] == "to" && "to"[1..] == "o";
    assert ToLower("o") == "o";
    assert ToLower("to") == "to";
    assert ToLower("lto") == "lto";
    assert ToLower("ilto") == "ilto";
    assert ToLower("ailto") == "ailto";
  }

  lemma AttendeesCarried(attendees: seq<Attendee>)
    ensures Collect(Collect(attendees, BuildAttendee), ParseAttendee) == Collect(attendees, CarriedAttendee)
  {
    forall a | a in attendees && a.address.email != ""
      ensures ParseAddress(BuildAttendee(a).value) == Carried(a.address)
    {
      AddressCarried(a.address, "NEEDS-ACTION");
    }
    CollectTwice(attendees, BuildAttendee, ParseAttendee, CarriedAttendee);
  }

  /** A REQUEST parses back to the invitation it was built from: identity, times, revision and
      organizer kept, the attendees carried, every PARTSTAT reset. */
  lemma RequestRoundTrip(inv: Invite)
    requires Request(inv).Ok?
    ensures Parse(Request(inv).value) ==
            inv.(kind := REQUEST, organizer := Carried(inv.organizer), attendees := Collect(inv.attendees, CarriedAttendee),
                 end := if inv.end.Some? then inv.end else inv.start)
  {
    AddressCarried(inv.organizer, "");
    AttendeesCarried(inv.attendees);
  }

  /** The clamped revision an attendee reads is the organizer's below 2^63, and 0 from there on. */
  lemma SequenceCarried(n: uint64)
    ensures SequenceToUint(ToInt64(n)) == if n < TWO63 then n else 0
  {
  }

  /** One more supersedes at the attendee exactly while the new revision fits a signed integer. */
  lemma NextSequenceSupersedesIff(n: uint64)
    ensures SequenceToUint(ToInt64((n + 1) % TWO64)) > SequenceToUint(ToInt64(n)) <==> n + 1 < TWO63
  {
  }

  /** The end instant survives exactly when the offset is not negative and fits a time.Duration. */
  lemma EndTimeKeptIff(e: Event)
    ensures EndTime(EventFromInvite(InviteFromEvent(e))) == EndTime(e) <==>
            (e.start.Some? && e.duration.Some? ==> 0 <= e.duration.value <= MAX_SECONDS)
  {
  }
}
