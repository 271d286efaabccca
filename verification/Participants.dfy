/** internal/calendar/jscal.go: the organizer and the attendee roster kept in one map of
    participants under the keys "organizer", "a1", "a2" and so on. */
module Participants {
  import opened Wrappers
  import opened Sequences
  import opened Decimal

  datatype Role = Owner | AttendeeRole

  datatype Participant = Participant(name: string, email: string, imip: Option<string>, partStat: string,
                                     scheduleStatus: seq<string>, roles: set<Role>)

  type Roster = map<string, Participant>

  const MAILTO: string := "mailto:"

  function ParticipantEmail(p: Participant): string {
    match p.imip
    case None => p.email
    case Some(uri) => if |uri| > |MAILTO| && uri[..|MAILTO|] == MAILTO then uri[|MAILTO|..] else uri
  }

  function NewParticipant(name: string, email: string, partStat: string, role: Role): (p: Participant)
    ensures ParticipantEmail(p) == email && p.name == name && p.partStat == partStat && p.roles == {role}
  {
    Participant(name, email, if email != "" then Some(MAILTO + email) else None, partStat, [], {role})
  }

  // ---- Keys in string order ----

  predicate Less(a: string, b: string) {
    if b == "" then false
    else if a == "" then true
    else a[0] < b[0] || (a[0] == b[0] && Less(a[1..], b[1..]))
  }

  ghost predicate Ascending(keys: seq<string>) { forall i, j :: 0 <= i < j < |keys| ==> Less(keys[i], keys[j]) }

  lemma {:induction false} LessTransitive(a: string, b: string, c: string)
    requires Less(a, b) && Less(b, c)
    ensures Less(a, c)
  {
    if a != "" && a[0] == b[0] == c[0] {
      LessTransitive(a[1..], b[1..], c[1..]);
    }
  }

  lemma {:induction false} LessTotal(a: string, b: string)
    ensures (Less(a, b) || a == b || Less(b, a)) && !(Less(a, b) && Less(b, a)) && !Less(a, a)
  {
    if a != "" && b != "" {
      LessTotal(a[1..], b[1..]);
      assert a == [a[0]] + a[1..] && b == [b[0]] + b[1..];
    }
    if a != "" {
      LessTotal(a[1..], a[1..]);
    }
  }

  /** slices.Sort of distinct keys: insertion from the left. */
  function InsertKey(k: string, keys: seq<string>): seq<string> {
    if keys == [] || Less(k, keys[0]) then [k] + keys else [keys[0]] + InsertKey(k, keys[1..])
  }

  lemma {:induction false} InsertKeyMembers(k: string, keys: seq<string>)
    ensures multiset(InsertKey(k, keys)) == multiset(keys) + multiset{k}
    ensures forall x :: x in InsertKey(k, keys) <==> x in keys || x == k
  {
    if keys == [] || Less(k, keys[0]) {
      assert InsertKey(k, keys) == [k] + keys;
    } else {
      InsertKeyMembers(k, keys[1..]);
      assert keys == [keys[0]] + keys[1..];
    }
  }

  lemma {:induction false} InsertKeySorted(k: string, keys: seq<string>)
    requires Ascending(keys) && k !in keys
    ensures Ascending(InsertKey(k, keys))
  {
    if keys == [] {
    } else if Less(k, keys[0]) {
      forall j | 0 <= j < |keys| ensures Less(k, keys[j]) {
        if j > 0 {
          LessTransitive(k, keys[0], keys[j]);
        }
      }
    } else {
      LessTotal(k, keys[0]);
      InsertKeySorted(k, keys[1..]);
      InsertKeyMembers(k, keys[1..]);
      var rest := InsertKey(k, keys[1..]);
      forall j | 0 <= j < |rest| ensures Less(keys[0], rest[j]) {
        assert rest[j] in rest;
        if rest[j] != k {
          var m :| 0 <= m < |keys[1..]| && keys[1..][m] == rest[j];
          assert Less(keys[0], keys[m + 1]);
        }
      }
    }
  }

  lemma TailMembers(a: seq<string>, k: string)
    requires Ascending(a) && a != []
    ensures k in a[1..] <==> k in a && k != a[0]
  {
    LessTotal(a[0], a[0]);
    assert a == [a[0]] + a[1..];
    if k in a[1..] {
      var m :| 0 <= m < |a[1..]| && a[1..][m] == k;
      assert Less(a[0], a[m + 1]);
    }
  }

  /** A strictly ascending listing of given keys is unique. */
  lemma {:induction false} AscendingUnique(a: seq<string>, b: seq<string>)
    requires Ascending(a) && Ascending(b) && forall k :: k in a <==> k in b
    ensures a == b
  {
    assert a != [] ==> a[0] in b;
    assert b != [] ==> b[0] in a;
    if a != [] {
      var i :| 0 <= i < |b| && b[i] == a[0];
      var j :| 0 <= j < |a| && a[j] == b[0];
      LessTotal(a[0], b[0]);
      assert a[0] == b[0];
      forall k ensures k in a[1..] <==> k in b[1..] {
        TailMembers(a, k);
        TailMembers(b, k);
      }
      AscendingUnique(a[1..], b[1..]);
      assert a == [a[0]] + a[1..] && b == [b[0]] + b[1..];
    }
  }

  ghost function SortedKeys(keys: set<string>): (r: seq<string>)
    ensures Ascending(r) && (forall k :: k in r <==> k in keys)
    decreases |keys|
  {
    if keys == {} then []
    else
      var k :| k in keys;
      var rest := SortedKeys(keys - {k});
      InsertKeySorted(k, rest);
      InsertKeyMembers(k, rest);
      InsertKey(k, rest)
  }

  /** sortedParticipantKeys: collect the keys in map order, then sort. */
  method SortedParticipantKeys(m: Roster) returns (keys: seq<string>)
    ensures keys == SortedKeys(m.Keys)
  {
    keys := [];
    var todo := m.Keys;
    while todo != {}
      invariant todo <= m.Keys && Ascending(keys)
      invariant forall k :: k in keys <==> k in m.Keys - todo
      decreases todo
    {
      var k :| k in todo;
      InsertKeySorted(k, keys);
      InsertKeyMembers(k, keys);
      keys := InsertKey(k, keys);
      todo := todo - {k};
    }
    AscendingUnique(keys, SortedKeys(m.Keys));
  }

  // ---- Reading and writing the roster ----

  function WithRole(m: Roster, keys: seq<string>, role: Role): seq<Participant>
    requires forall k :: k in keys ==> k in m
  {
    if keys == [] then []
    else (if role in m[keys[0]].roles then [m[keys[0]]] else []) + WithRole(m, keys[1..], role)
  }

  ghost function Attendees(m: Roster): seq<Participant> { WithRole(m, SortedKeys(m.Keys), AttendeeRole) }

  ghost function Organizer(m: Roster): Option<Participant> {
    var owners := WithRole(m, SortedKeys(m.Keys), Owner);
    if owners == [] then None else Some(owners[0])
  }

  function AttendeeKey(i: nat): string { "a" + Format(i + 1) }

  function Keyed(attendees: seq<Participant>): Roster {
    if attendees == [] then map[]
    else Keyed(attendees[..|attendees| - 1])[AttendeeKey(|attendees| - 1) := attendees[|attendees| - 1]]
  }

  function SetOrganizerAttendees(m: Roster, organizer: Option<Participant>, attendees: seq<Participant>): Roster {
    if organizer.None? && attendees == [] then m
    else if organizer.None? then Keyed(attendees)
    else Keyed(attendees)["organizer" := organizer.value]
  }

  /** eachAttendee: rewrite every attendee and put the roster back. */
  ghost function EachAttendee(m: Roster, f: Participant -> Participant): Roster {
    var before := Attendees(m);
    SetOrganizerAttendees(m, Organizer(m), seq(|before|, i requires 0 <= i < |before| => f(before[i])))
  }

  // ---- What reading back gives ----

  function Having(ps: seq<Participant>, role: Role): seq<Participant> { Filter(ps, (p: Participant) => role in p.roles) }

  lemma {:induction false} WithRoleAppend(m: Roster, a: seq<string>, b: seq<string>, role: Role)
    requires forall k :: k in a + b ==> k in m
    ensures (forall k :: k in a ==> k in m) && (forall k :: k in b ==> k in m)
    ensures WithRole(m, a + b, role) == WithRole(m, a, role) + WithRole(m, b, role)
  {
    assert forall k :: k in a ==> k in a + b;
    assert forall k :: k in b ==> k in a + b;
    if a == [] {
      assert a + b == b;
    } else {
      assert (a + b)[1..] == a[1..] + b && (a + b)[0] == a[0];
      WithRoleAppend(m, a[1..], b, role);
      WithRoleFirst(m, a, role);
      WithRoleFirst(m, a + b, role);
      ConcatAssociative(One(m, a[0], role), WithRole(m, a[1..], role), WithRole(m, b, role));
    }
  }

  function One(m: Roster, k: string, role: Role): seq<Participant>
    requires k in m
  {
    if role in m[k].roles then [m[k]] else []
  }

  lemma WithRoleFirst(m: Roster, keys: seq<string>, role: Role)
    requires keys != [] && forall k :: k in keys ==> k in m
    ensures WithRole(m, keys, role) == One(m, keys[0], role) + WithRole(m, keys[1..], role)
  {
  }

  lemma ConcatAssociative<T>(a: seq<T>, b: seq<T>, c: seq<T>)
    ensures a + b + c == a + (b + c)
  {
  }

  lemma WithRoleWithout(m: Roster, b: seq<string>, i: nat, role: Role)
    requires i < |b| && forall k :: k in b ==> k in m
    ensures multiset(b) == multiset(b[..i] + b[i + 1..]) + multiset{b[i]}
    ensures forall k :: k in b[..i] + b[i + 1..] ==> k in m
    ensures multiset(WithRole(m, b, role)) ==
            multiset(WithRole(m, b[..i] + b[i + 1..], role)) + multiset(One(m, b[i], role))
  {
    var left, right := b[..i], b[i + 1..];
    assert b == left + ([b[i]] + right);
    WithRoleAppend(m, left, [b[i]] + right, role);
    WithRoleAppend(m, left, right, role);
    assert ([b[i]] + right)[1..] == right;
  }

  /** The participants read depend, as a multiset, on the keys as a multiset. */
  lemma {:induction false} WithRolePermuted(m: Roster, a: seq<string>, b: seq<string>, role: Role)
    requires multiset(a) == multiset(b)
    requires (forall k :: k in a ==> k in m) && (forall k :: k in b ==> k in m)
    ensures multiset(WithRole(m, a, role)) == multiset(WithRole(m, b, role))
  {
    if a == [] {
      assert |b| == |multiset(b)| == 0;
    } else {
      HeadAndTail(a);
      var i := Occurs(a[0], b);
      var rest := b[..i] + b[i + 1..];
      WithRoleWithout(m, b, i, role);
      CancelOne(multiset(a[1..]), multiset(rest), a[0]);
      WithRolePermuted(m, a[1..], rest, role);
      assert WithRole(m, a, role) == One(m, a[0], role) + WithRole(m, a[1..], role);
    }
  }

  /** Two duplicate-free listings of the same keys are permutations of each other. */
  lemma {:induction false} SameElementsPermuted(a: seq<string>, b: seq<string>)
    requires NoDuplicates(a) && NoDuplicates(b) && forall k :: k in a <==> k in b
    ensures multiset(a) == multiset(b)
  {
    forall k ensures multiset(a)[k] == multiset(b)[k] {
      CountDistinct(a, k);
      CountDistinct(b, k);
    }
  }

  lemma {:induction false} CountDistinct(a: seq<string>, k: string)
    requires NoDuplicates(a)
    ensures multiset(a)[k] == if k in a then 1 else 0
  {
    if a != [] {
      var init := a[..|a| - 1];
      assert a == init + [a[|a| - 1]];
      ConcatNoDuplicates(init, [a[|a| - 1]]);
      CountDistinct(init, k);
    }
  }

  lemma AscendingIsDistinct(a: seq<string>)
    requires Ascending(a)
    ensures NoDuplicates(a)
  {
    forall i, j | 0 <= i < j < |a| ensures a[i] != a[j] {
      LessTotal(a[i], a[j]);
    }
  }

  function AttendeeKeys(n: nat): (keys: seq<string>)
    ensures |keys| == n && forall i :: 0 <= i < n ==> keys[i] == AttendeeKey(i)
  {
    seq(n, i requires 0 <= i => AttendeeKey(i))
  }

  lemma AttendeeKeysDistinct(i: nat, j: nat)
    ensures AttendeeKey(i) == AttendeeKey(j) ==> i == j
    ensures AttendeeKey(i) != "organizer"
  {
    if AttendeeKey(i) == AttendeeKey(j) {
      assert AttendeeKey(i)[1..] == Format(i + 1) && AttendeeKey(j)[1..] == Format(j + 1);
      FormatInjective(i + 1, j + 1);
    }
    assert AttendeeKey(i)[0] == 'a' && "organizer"[0] == 'o';
  }

  lemma {:induction false} KeyedAt(attendees: seq<Participant>)
    ensures forall k :: k in Keyed(attendees) <==> k in AttendeeKeys(|attendees|)
    ensures forall i :: 0 <= i < |attendees| ==> AttendeeKey(i) in Keyed(attendees) && Keyed(attendees)[AttendeeKey(i)] == attendees[i]
  {
    if attendees != [] {
      var n := |attendees| - 1;
      KeyedAt(attendees[..n]);
      assert AttendeeKeys(n + 1) == AttendeeKeys(n) + [AttendeeKey(n)];
      forall i | 0 <= i < n ensures AttendeeKey(i) in Keyed(attendees) && Keyed(attendees)[AttendeeKey(i)] == attendees[i] {
        AttendeeKeysDistinct(i, n);
      }
    }
  }

  lemma {:induction false} ReadInKeyOrder(m: Roster, attendees: seq<Participant>, role: Role, from: nat)
    requires from <= |attendees|
    requires forall i :: 0 <= i < |attendees| ==> AttendeeKey(i) in m && m[AttendeeKey(i)] == attendees[i]
    ensures forall k :: k in AttendeeKeys(|attendees|)[..from] ==> k in m
    ensures WithRole(m, AttendeeKeys(|attendees|)[..from], role) == Having(attendees[..from], role)
  {
    var keys := AttendeeKeys(|attendees|);
    if from > 0 {
      ReadInKeyOrder(m, attendees, role, from - 1);
      assert keys[..from] == keys[..from - 1] + [keys[from - 1]];
      WithRoleAppend(m, keys[..from - 1], [keys[from - 1]], role);
      assert attendees[..from][..from - 1] == attendees[..from - 1];
    }
  }

  function AllKeys(organizer: Option<Participant>, n: nat): seq<string> {
    if organizer.Some? then AttendeeKeys(n) + ["organizer"] else AttendeeKeys(n)
  }

  lemma AllKeysListed(m: Roster, organizer: Option<Participant>, attendees: seq<Participant>)
    requires organizer.Some? || attendees != []
    ensures var m' := SetOrganizerAttendees(m, organizer, attendees);
            && multiset(AllKeys(organizer, |attendees|)) == multiset(SortedKeys(m'.Keys))
            && (forall k :: k in AllKeys(organizer, |attendees|) <==> k in m')
            && (forall i :: 0 <= i < |attendees| ==> AttendeeKey(i) in m' && m'[AttendeeKey(i)] == attendees[i])
            && (organizer.Some? ==> m'["organizer"] == organizer.value)
  {
    var m', all := SetOrganizerAttendees(m, organizer, attendees), AllKeys(organizer, |attendees|);
    KeyedAt(attendees);
    forall i, j | 0 <= i < j < |all| ensures all[i] != all[j] {
      AttendeeKeysDistinct(i, j);
    }
    forall i | 0 <= i < |attendees| ensures AttendeeKey(i) != "organizer" {
      AttendeeKeysDistinct(i, i);
    }
    AscendingIsDistinct(SortedKeys(m'.Keys));
    SameElementsPermuted(all, SortedKeys(m'.Keys));
  }

  lemma ReadAllKeys(m: Roster, organizer: Option<Participant>, attendees: seq<Participant>, role: Role)
    requires forall i :: 0 <= i < |attendees| ==> AttendeeKey(i) in m && m[AttendeeKey(i)] == attendees[i]
    requires organizer.Some? ==> "organizer" in m && m["organizer"] == organizer.value
    requires forall k :: k in AllKeys(organizer, |attendees|) ==> k in m
    ensures WithRole(m, AllKeys(organizer, |attendees|), role) ==
            Having(attendees, role) + (if organizer.Some? && role in organizer.value.roles then [organizer.value] else [])
  {
    var keys := AttendeeKeys(|attendees|);
    ReadInKeyOrder(m, attendees, role, |attendees|);
    assert keys[..|attendees|] == keys && attendees[..|attendees|] == attendees;
    if organizer.Some? {
      WithRoleAppend(m, keys, ["organizer"], role);
    }
  }

  /** Reading back with any role, as a multiset: the attendees with that role, and the
      organizer when it has the role. */
  lemma ReadBack(m: Roster, organizer: Option<Participant>, attendees: seq<Participant>, role: Role)
    requires organizer.Some? || attendees != []
    ensures var m' := SetOrganizerAttendees(m, organizer, attendees);
            multiset(WithRole(m', SortedKeys(m'.Keys), role)) ==
            multiset(Having(attendees, role) + (if organizer.Some? && role in organizer.value.roles then [organizer.value] else []))
  {
    var m' := SetOrganizerAttendees(m, organizer, attendees);
    AllKeysListed(m, organizer, attendees);
    ReadAllKeys(m', organizer, attendees, role);
    WithRolePermuted(m', AllKeys(organizer, |attendees|), SortedKeys(m'.Keys), role);
  }
}
