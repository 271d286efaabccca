/** What the roster operations of internal/calendar/jscal.go and eachAttendee of
    internal/server/calendar_write.go promise: the roster read back is the roster written,
    as a multiset always and in order for up to nine attendees. */
module RosterLaws {
  import opened Wrappers
  import opened Sequences
  import opened Decimal
  import opened Participants

  predicate IsAttendee(p: Participant) { AttendeeRole in p.roles }

  predicate NoAttendeeOrganizer(organizer: Option<Participant>) { organizer.None? || !IsAttendee(organizer.value) }

  // ---- The roster as a multiset ----

  lemma HavingAll(ps: seq<Participant>, role: Role)
    ensures Having(ps, role) == ps <==> forall p :: p in ps ==> role in p.roles
    ensures |Having(ps, role)| <= |ps| && (|Having(ps, role)| == |ps| ==> Having(ps, role) == ps)
    ensures forall p :: p in Having(ps, role) <==> p in ps && role in p.roles
  {
    FilterElements(ps, (p: Participant) => role in p.roles);
    HavingShorter(ps, role);
    if forall p :: p in ps ==> role in p.roles {
      FilterAll(ps, (p: Participant) => role in p.roles);
    }
  }

  lemma {:induction false} HavingShorter(ps: seq<Participant>, role: Role)
    ensures |Having(ps, role)| <= |ps| && (|Having(ps, role)| == |ps| ==> Having(ps, role) == ps)
  {
    if ps != [] {
      HavingShorter(ps[..|ps| - 1], role);
      assert ps == ps[..|ps| - 1] + [ps[|ps| - 1]];
    }
  }

  /** Attendees after SetOrganizerAttendees is a permutation of the attendees written exactly
      when every one of them has the attendee role and the organizer lacks it. */
  lemma WrittenRosterIsRead(m: Roster, organizer: Option<Participant>, attendees: seq<Participant>)
    requires organizer.Some? || attendees != []
    ensures multiset(Attendees(SetOrganizerAttendees(m, organizer, attendees))) == multiset(attendees) <==>
            (forall p :: p in attendees ==> IsAttendee(p)) && NoAttendeeOrganizer(organizer)
  {
    ReadBack(m, organizer, attendees, AttendeeRole);
    HavingAll(attendees, AttendeeRole);
    var extra := if organizer.Some? && AttendeeRole in organizer.value.roles then [organizer.value] else [];
    var listed := Having(attendees, AttendeeRole) + extra;
    if (forall p :: p in attendees ==> IsAttendee(p)) && NoAttendeeOrganizer(organizer) {
      assert listed == attendees;
    } else if multiset(listed) == multiset(attendees) {
      assert |listed| == |multiset(listed)| == |attendees|;
      forall p | p in attendees ensures IsAttendee(p) {
        assert p in multiset(attendees);
        assert p in multiset(listed);
      }
    }
  }

  lemma {:induction false} ReadHaveRole(m: Roster, keys: seq<string>, role: Role)
    requires forall k :: k in keys ==> k in m
    ensures forall p :: p in WithRole(m, keys, role) ==> role in p.roles
    ensures forall p :: p in WithRole(m, keys, role) ==> exists k :: k in keys && m[k] == p
  {
    if keys != [] {
      ReadHaveRole(m, keys[1..], role);
    }
  }

  ghost function Rewritten(m: Roster, f: Participant -> Participant): seq<Participant> {
    var before := Attendees(m);
    seq(|before|, i requires 0 <= i < |before| => f(before[i]))
  }

  ghost predicate KeepsRoles(f: Participant -> Participant) { forall p :: f(p).roles == p.roles }

  /** eachAttendee applies f to the roster as a multiset exactly when the organizer it puts
      back is not an attendee too. */
  lemma EachAttendeeRewritesRoster(m: Roster, f: Participant -> Participant)
    requires KeepsRoles(f)
    ensures multiset(Attendees(EachAttendee(m, f))) == multiset(Rewritten(m, f)) <==> NoAttendeeOrganizer(Organizer(m))
  {
    var after := Rewritten(m, f);
    ReadHaveRole(m, SortedKeys(m.Keys), AttendeeRole);
    forall p | p in after ensures IsAttendee(p) {
      var i :| 0 <= i < |after| && after[i] == p;
      assert Attendees(m)[i] in Attendees(m);
    }
    if Organizer(m).Some? || after != [] {
      WrittenRosterIsRead(m, Organizer(m), after);
    } else {
      assert Attendees(m) == [];
    }
  }

  // ---- The organizer read back ----

  ghost predicate NoOwners(ps: seq<Participant>) { forall p :: p in ps ==> Owner !in p.roles }

  /** Of the owners among attendees written in this order, the one whose key sorts first. */
  ghost predicate FirstOwnerAt(ps: seq<Participant>, i: int) {
    && 0 <= i < |ps| && Owner in ps[i].roles
    && forall j :: 0 <= j < |ps| && j != i && Owner in ps[j].roles ==> Less(AttendeeKey(i), AttendeeKey(j))
  }

  lemma {:induction false} FirstOwner(ps: seq<Participant>) returns (i: int)
    requires !NoOwners(ps)
    ensures FirstOwnerAt(ps, i)
  {
    var init, last := ps[..|ps| - 1], |ps| - 1;
    assert ps == init + [ps[last]];
    if NoOwners(init) {
      assert forall j :: 0 <= j < last ==> init[j] in init && ps[j] == init[j];
      i := last;
    } else {
      var k := FirstOwner(init);
      i := if Owner in ps[last].roles && Less(AttendeeKey(last), AttendeeKey(k)) then last else k;
      forall j | 0 <= j < |ps| && j != i && Owner in ps[j].roles ensures Less(AttendeeKey(i), AttendeeKey(j)) {
        EarlierKey(ps, init, k, i, j);
      }
    }
  }

  lemma EarlierKey(ps: seq<Participant>, init: seq<Participant>, k: int, i: int, j: int)
    requires |ps| == |init| + 1 && ps[..|init|] == init && FirstOwnerAt(init, k)
    requires i == if Owner in ps[|init|].roles && Less(AttendeeKey(|init|), AttendeeKey(k)) then |init| else k
    requires 0 <= j < |ps| && j != i && Owner in ps[j].roles
    ensures Less(AttendeeKey(i), AttendeeKey(j))
  {
    if j < |init| {
      assert init[j] == ps[j];
      if i == |init| && j != k {
        LessTransitive(AttendeeKey(i), AttendeeKey(k), AttendeeKey(j));
      }
    } else {
      LessTotal(AttendeeKey(|init|), AttendeeKey(k));
      AttendeeKeysDistinct(|init|, k);
    }
  }

  /** Reading with a role starts at the least key that has it. */
  lemma {:induction false} FirstWithRole(m: Roster, keys: seq<string>, role: Role, k: string)
    requires Ascending(keys) && (forall x :: x in keys ==> x in m) && k in keys && role in m[k].roles
    requires forall x :: x in keys && x != k && role in m[x].roles ==> Less(k, x)
    ensures WithRole(m, keys, role) != [] && WithRole(m, keys, role)[0] == m[k]
  {
    if keys[0] != k {
      TailMembers(keys, k);
      var i :| 0 <= i < |keys| && keys[i] == k;
      LessTotal(keys[0], k);
      assert role !in m[keys[0]].roles;
      FirstWithRole(m, keys[1..], role, k);
    }
  }

  /** The organizer after SetOrganizerAttendees: an owner among the attendees comes before the one
      written, because the attendees' keys sort before "organizer". */
  lemma WrittenOrganizer(m: Roster, organizer: Option<Participant>, attendees: seq<Participant>)
    requires organizer.Some? || attendees != []
    requires organizer.Some? ==> Owner in organizer.value.roles
    ensures NoOwners(attendees) ==> Organizer(SetOrganizerAttendees(m, organizer, attendees)) == organizer
    ensures forall i :: FirstOwnerAt(attendees, i) ==> Organizer(SetOrganizerAttendees(m, organizer, attendees)) == Some(attendees[i])
  {
    var m' := SetOrganizerAttendees(m, organizer, attendees);
    if NoOwners(attendees) {
      ReadBack(m, organizer, attendees, Owner);
      FilterNone(attendees, (p: Participant) => Owner in p.roles);
      OneElement(WithRole(m', SortedKeys(m'.Keys), Owner), if organizer.Some? then [organizer.value] else []);
    }
    forall i | FirstOwnerAt(attendees, i) ensures Organizer(m') == Some(attendees[i]) {
      OwnerSortsFirst(m, organizer, attendees, i);
    }
  }

  lemma OwnerSortsFirst(m: Roster, organizer: Option<Participant>, attendees: seq<Participant>, i: int)
    requires FirstOwnerAt(attendees, i)
    ensures Organizer(SetOrganizerAttendees(m, organizer, attendees)) == Some(attendees[i])
  {
    var m' := SetOrganizerAttendees(m, organizer, attendees);
    AllKeysListed(m, organizer, attendees);
    forall x | x in m' && x != AttendeeKey(i) && Owner in m'[x].roles ensures Less(AttendeeKey(i), x) {
      OwnerBefore(m', AllKeys(organizer, |attendees|), attendees, i, x);
    }
    FirstWithRole(m', SortedKeys(m'.Keys), Owner, AttendeeKey(i));
  }

  lemma OwnerBefore(m: Roster, all: seq<string>, attendees: seq<Participant>, i: int, x: string)
    requires FirstOwnerAt(attendees, i) && x in all && x in m && x != AttendeeKey(i) && Owner in m[x].roles
    requires all == AttendeeKeys(|attendees|) || all == AttendeeKeys(|attendees|) + ["organizer"]
    requires forall j :: 0 <= j < |attendees| ==> AttendeeKey(j) in m && m[AttendeeKey(j)] == attendees[j]
    ensures Less(AttendeeKey(i), x)
  {
    var j :| 0 <= j < |all| && all[j] == x;
    if j < |attendees| {
      assert x == AttendeeKey(j);
    } else {
      KeyOrder(i);
    }
  }

  lemma RewrittenOwners(m: Roster, f: Participant -> Participant)
    requires KeepsRoles(f)
    ensures NoOwners(Rewritten(m, f)) <==> NoOwners(Attendees(m))
    ensures forall i :: FirstOwnerAt(Rewritten(m, f), i) <==> FirstOwnerAt(Attendees(m), i)
  {
    var before, after := Attendees(m), Rewritten(m, f);
    assert forall i :: 0 <= i < |before| ==> after[i].roles == before[i].roles;
    if !NoOwners(before) {
      var i := FirstOwner(before);
      assert after[i] in after;
    }
    if !NoOwners(after) {
      var i := FirstOwner(after);
      assert before[i] in before;
    }
  }

  lemma OrganizerIsOwner(m: Roster)
    ensures Organizer(m).Some? ==> Owner in Organizer(m).value.roles
  {
    ReadHaveRole(m, SortedKeys(m.Keys), Owner);
    var owners := WithRole(m, SortedKeys(m.Keys), Owner);
    assert owners != [] ==> owners[0] in owners;
  }

  /** The organizer after eachAttendee: the rewritten first owner among the attendees, if there is
      one, else the organizer there was. */
  lemma EachAttendeeOrganizer(m: Roster, f: Participant -> Participant)
    requires KeepsRoles(f)
    ensures NoOwners(Attendees(m)) ==> Organizer(EachAttendee(m, f)) == Organizer(m)
    ensures forall i :: FirstOwnerAt(Attendees(m), i) ==> Organizer(EachAttendee(m, f)) == Some(f(Attendees(m)[i]))
  {
    OrganizerIsOwner(m);
    RewrittenOwners(m, f);
    if Organizer(m).Some? || Rewritten(m, f) != [] {
      WrittenOrganizer(m, Organizer(m), Rewritten(m, f));
    }
  }

  /** eachAttendee keeps the organizer exactly when the first owner among the attendees, if there is
      one, is what f makes the organizer. */
  lemma EachAttendeeKeepsOrganizer(m: Roster, f: Participant -> Participant)
    requires KeepsRoles(f)
    ensures Organizer(EachAttendee(m, f)) == Organizer(m) <==>
            forall i :: FirstOwnerAt(Attendees(m), i) ==> Organizer(m) == Some(f(Attendees(m)[i]))
  {
    EachAttendeeOrganizer(m, f);
    if !NoOwners(Attendees(m)) {
      var i := FirstOwner(Attendees(m));
      assert FirstOwnerAt(Attendees(m), i);
    }
  }

  lemma OneElement<T>(a: seq<T>, b: seq<T>)
    requires multiset(a) == multiset(b) && |b| <= 1
    ensures a == b
  {
    assert |a| == |multiset(a)| == |b|;
    if |b| == 1 {
      assert a[0] in multiset(a);
    }
  }

  // ---- The roster in order ----

  lemma {:induction false} LessExtended(a: string, b: string, c: string)
    requires Less(a, b)
    ensures Less(a, b + c)
  {
    if a != "" && a[0] == b[0] {
      LessExtended(a[1..], b[1..], c);
      assert (b + c)[1..] == b[1..] + c;
    }
  }

  lemma LessPrefixed(p: char, a: string, b: string)
    ensures Less([p] + a, [p] + b) == Less(a, b)
  {
    assert ([p] + a)[1..] == a && ([p] + b)[1..] == b;
  }

  /** Among the numbers from 1 on, "1" sorts first and "10" second. */
  lemma {:induction false} TenSortsSecond(n: nat)
    requires 1 <= n
    ensures n != 1 ==> Less(Format(1), Format(n))
    ensures n != 1 && n != 10 ==> Less(Format(10), Format(n))
  {
    assert Format(1) == "1" && Format(10) == Format(1) + "0";
    if 2 <= n < 10 {
      assert Format(n)[0] > '1';
    } else if n >= 10 {
      var high, digit := Format(n / 10), [DigitChar(n % 10)];
      assert Format(n) == high + digit;
      TenSortsSecond(n / 10);
      if n / 10 == 1 {
        assert Format(n) == ['1'] + digit;
        LessPrefixed('1', "", digit);
        LessPrefixed('1', "0", digit);
        assert Format(1) == ['1'] + "" && Format(10) == ['1'] + "0";
      } else {
        LessExtended(Format(1), high, digit);
        if n / 10 == 10 {
          assert Less("10", "10" + digit);
        } else {
          LessExtended(Format(10), high, digit);
        }
      }
    }
  }

  lemma FirstIs(keys: seq<string>, k: string)
    requires Ascending(keys) && k in keys
    requires forall x :: x in keys && x != k ==> Less(k, x)
    ensures keys[0] == k
  {
    if keys[0] != k {
      var i :| 0 <= i < |keys| && keys[i] == k;
      assert Less(keys[0], keys[i]) && keys[0] in keys;
      LessTotal(keys[0], k);
    }
  }

  lemma KeyOrder(i: nat)
    ensures i != 0 ==> Less(AttendeeKey(0), AttendeeKey(i))
    ensures i != 0 && i != 9 ==> Less(AttendeeKey(9), AttendeeKey(i))
    ensures Less(AttendeeKey(i), "organizer")
  {
    TenSortsSecond(i + 1);
    LessPrefixed('a', Format(1), Format(i + 1));
    LessPrefixed('a', Format(10), Format(i + 1));
  }

  /** Reading the roster back: every attendee has the role, and the organizer does not. */
  ghost predicate ProperRoster(organizer: Option<Participant>, attendees: seq<Participant>) {
    attendees != [] && (forall p :: p in attendees ==> IsAttendee(p)) && NoAttendeeOrganizer(organizer)
  }

  lemma NineKeysAscend(organizer: Option<Participant>, n: nat)
    requires n <= 9
    ensures Ascending(AllKeys(organizer, n))
  {
    var all := AllKeys(organizer, n);
    forall i, j | 0 <= i < j < |all| ensures Less(all[i], all[j]) {
      KeyOrder(i);
      if j < n {
        LessPrefixed('a', Format(i + 1), Format(j + 1));
      }
    }
  }

  /** Up to nine attendees come back in the order written. */
  lemma NineKeepTheirOrder(m: Roster, organizer: Option<Participant>, attendees: seq<Participant>)
    requires ProperRoster(organizer, attendees) && |attendees| <= 9
    ensures Attendees(SetOrganizerAttendees(m, organizer, attendees)) == attendees
  {
    var m', all := SetOrganizerAttendees(m, organizer, attendees), AllKeys(organizer, |attendees|);
    AllKeysListed(m, organizer, attendees);
    NineKeysAscend(organizer, |attendees|);
    AscendingUnique(all, SortedKeys(m'.Keys));
    ReadAllKeys(m', organizer, attendees, AttendeeRole);
    HavingAll(attendees, AttendeeRole);
  }

  /** With ten or more, the tenth is read second: "a10" sorts before "a2". */
  lemma TenthIsReadSecond(m: Roster, organizer: Option<Participant>, attendees: seq<Participant>)
    requires ProperRoster(organizer, attendees) && |attendees| >= 10
    ensures var read := Attendees(SetOrganizerAttendees(m, organizer, attendees));
            |read| >= 2 && read[0] == attendees[0] && read[1] == attendees[9]
  {
    var m' := SetOrganizerAttendees(m, organizer, attendees);
    var all, keys := AllKeys(organizer, |attendees|), SortedKeys(m'.Keys);
    AllKeysListed(m, organizer, attendees);
    FirstKeys(organizer, |attendees|, keys);
    assert attendees[0] in attendees && attendees[9] in attendees;
    FirstTwoRead(m', keys);
  }

  lemma FirstTwoRead(m: Roster, keys: seq<string>)
    requires |keys| >= 2 && forall k :: k in keys ==> k in m
    requires IsAttendee(m[keys[0]]) && IsAttendee(m[keys[1]])
    ensures var read := WithRole(m, keys, AttendeeRole); |read| >= 2 && read[0] == m[keys[0]] && read[1] == m[keys[1]]
  {
    var rest := keys[1..];
    assert rest[0] == keys[1];
    assert WithRole(m, rest, AttendeeRole) == [m[keys[1]]] + WithRole(m, rest[1..], AttendeeRole);
    assert WithRole(m, keys, AttendeeRole) == [m[keys[0]]] + WithRole(m, rest, AttendeeRole);
  }

  lemma FirstKeys(organizer: Option<Participant>, n: nat, keys: seq<string>)
    requires n >= 10 && Ascending(keys)
    requires forall k :: k in keys <==> k in AllKeys(organizer, n)
    ensures |keys| >= 2 && keys[0] == AttendeeKey(0) && keys[1] == AttendeeKey(9)
  {
    var all := AllKeys(organizer, n);
    assert all[0] == AttendeeKey(0) && all[9] == AttendeeKey(9);
    forall x | x in all
      ensures x != AttendeeKey(0) ==> Less(AttendeeKey(0), x)
      ensures x != AttendeeKey(0) && x != AttendeeKey(9) ==> Less(AttendeeKey(9), x)
    {
      var i :| 0 <= i < |all| && all[i] == x;
      KeyOrder(i);
      KeyOrder(0);
      KeyOrder(9);
    }
    AttendeeKeysDistinct(0, 9);
    FirstIs(keys, AttendeeKey(0));
    TailMembers(keys, AttendeeKey(9));
    forall x | x in keys[1..] && x != AttendeeKey(9) ensures Less(AttendeeKey(9), x) {
      TailMembers(keys, x);
    }
    FirstIs(keys[1..], AttendeeKey(9));
  }

  /** The order written is the order read exactly up to nine attendees. */
  lemma OrderKeptIffAtMostNine(m: Roster, organizer: Option<Participant>, attendees: seq<Participant>)
    requires ProperRoster(organizer, attendees) && NoDuplicates(attendees)
    ensures Attendees(SetOrganizerAttendees(m, organizer, attendees)) == attendees <==> |attendees| <= 9
  {
    if |attendees| <= 9 {
      NineKeepTheirOrder(m, organizer, attendees);
    } else {
      TenthIsReadSecond(m, organizer, attendees);
      assert attendees[1] != attendees[9];
    }
  }
}
