/** What the rule compiler of internal/sieve/sieve.go promises: the script does what the rules
    say, and reading it back gives the rules. */
module SieveLaws {
  import opened Wrappers
  import opened Sequences
  import opened Invitations
  import opened Sieve

  // ---- Order ----

  ghost predicate Sorted(rules: seq<Rule>) { forall i, j :: 0 <= i < j < |rules| ==> rules[i].sequence <= rules[j].sequence }

  function HasSequence(v: int): Rule -> bool { (r: Rule) => r.sequence == v }

  /** Rules of equal Sequence stay in the order they had. */
  ghost predicate SameOrder(a: seq<Rule>, b: seq<Rule>) { forall v :: Filter(a, HasSequence(v)) == Filter(b, HasSequence(v)) }

  lemma BelowStaysSorted(rest: seq<Rule>, last: Rule)
    requires Sorted(rest) && forall x :: x in rest ==> x.sequence <= last.sequence
    ensures Sorted(rest + [last])
  {
  }

  lemma {:induction false} InsertMembers(r: Rule, rules: seq<Rule>)
    ensures multiset(Insert(r, rules)) == multiset(rules) + multiset{r}
    ensures forall x :: x in Insert(r, rules) ==> x in rules || x == r
  {
    if rules != [] && rules[|rules| - 1].sequence > r.sequence {
      var init, last := rules[..|rules| - 1], rules[|rules| - 1];
      assert rules == init + [last];
      InsertMembers(r, init);
    }
  }

  lemma {:induction false} InsertSorts(r: Rule, rules: seq<Rule>)
    requires Sorted(rules)
    ensures Sorted(Insert(r, rules)) && SameOrder(Insert(r, rules), rules + [r])
  {
    if rules != [] && rules[|rules| - 1].sequence > r.sequence {
      var init, last := rules[..|rules| - 1], rules[|rules| - 1];
      var rest := Insert(r, init);
      InsertSorts(r, init);
      InsertMembers(r, init);
      BelowStaysSorted(rest, last);
      assert rules == init + [last];
      forall v ensures Filter(rest + [last], HasSequence(v)) == Filter(rules + [r], HasSequence(v)) {
        InsertKeepsOrder(r, init, last, rest, v);
      }
    }
  }

  lemma InsertKeepsOrder(r: Rule, init: seq<Rule>, last: Rule, rest: seq<Rule>, v: int)
    requires last.sequence > r.sequence && Filter(rest, HasSequence(v)) == Filter(init + [r], HasSequence(v))
    ensures Filter(rest + [last], HasSequence(v)) == Filter(init + [last] + [r], HasSequence(v))
  {
    FilterAppend(rest, [last], HasSequence(v));
    FilterAppend(init, [r], HasSequence(v));
    FilterAppend(init + [last], [r], HasSequence(v));
    FilterAppend(init, [last], HasSequence(v));
  }

  /** The sort is sorted, stable, and keeps every rule. */
  lemma {:induction false} StableSortSorts(rules: seq<Rule>)
    ensures Sorted(StableSort(rules)) && SameOrder(StableSort(rules), rules)
    ensures multiset(StableSort(rules)) == multiset(rules)
  {
    if rules != [] {
      var init, last := rules[..|rules| - 1], rules[|rules| - 1];
      assert rules == init + [last];
      StableSortSorts(init);
      InsertSorts(last, StableSort(init));
      InsertMembers(last, StableSort(init));
      forall v ensures Filter(StableSort(rules), HasSequence(v)) == Filter(rules, HasSequence(v)) {
        FilterAppend(StableSort(init), [last], HasSequence(v));
        FilterAppend(init, [last], HasSequence(v));
      }
    }
  }

  lemma LastOfSequence(a: seq<Rule>, b: seq<Rule>)
    requires Sorted(b) && a != [] && SameOrder(a, b)
    ensures b != [] && a[|a| - 1].sequence <= b[|b| - 1].sequence
  {
    var m := a[|a| - 1].sequence;
    FilterElements(a, HasSequence(m));
    FilterElements(b, HasSequence(m));
    assert a[|a| - 1] in Filter(b, HasSequence(m));
    assert a[|a| - 1] in b;
    var i :| 0 <= i < |b| && b[i] == a[|a| - 1];
  }

  /** Being sorted and stable determines the order. */
  lemma {:induction false} StableOrderUnique(a: seq<Rule>, b: seq<Rule>)
    requires Sorted(a) && Sorted(b) && SameOrder(a, b)
    ensures a == b
  {
    if a != [] {
      LastOfSequence(a, b);
      LastOfSequence(b, a);
      var inita, initb, la, lb := a[..|a| - 1], b[..|b| - 1], a[|a| - 1], b[|b| - 1];
      var m := la.sequence;
      assert Filter(a, HasSequence(m)) == Filter(inita, HasSequence(m)) + [la];
      assert Filter(b, HasSequence(m)) == Filter(initb, HasSequence(m)) + [lb];
      forall v ensures Filter(inita, HasSequence(v)) == Filter(initb, HasSequence(v)) {
        assert Filter(a, HasSequence(v)) == Filter(b, HasSequence(v));
        if v == m {
          AppendInjective(Filter(inita, HasSequence(m)), la, Filter(initb, HasSequence(m)), lb);
        }
      }
      AppendInjective(Filter(inita, HasSequence(m)), la, Filter(initb, HasSequence(m)), lb);
      StableOrderUnique(inita, initb);
      assert a == inita + [la] && b == initb + [lb];
    } else if b != [] {
      LastOfSequence(b, a);
    }
  }

  lemma AppendInjective<T>(a: seq<T>, x: T, b: seq<T>, y: T)
    requires a + [x] == b + [y]
    ensures a == b && x == y
  {
    assert (a + [x])[..|a|] == a && (b + [y])[..|b|] == b;
    assert (a + [x])[|a|] == x && (b + [y])[|b|] == y;
  }

  // ---- Reading back ----

  lemma {:induction false} MetaOfConcatenated(rules: seq<Rule>)
    ensures MetaRules(Concatenated(rules)) == Ok(rules)
  {
    if rules != [] {
      var head := RuleCommands(rules[0]);
      assert MetaRules(head) == Ok([rules[0]]) by {
        var comment := [Comment(Meta(rules[0]))];
        assert comment[..0] == [] && [] + [rules[0]] == [rules[0]];
        assert MetaRules(comment) == Ok([rules[0]]);
        if rules[0].enabled {
          assert head[..1] == comment;
        }
      }
      MetaOfConcatenated(rules[1..]);
      MetaRulesAppend(head, Concatenated(rules[1..]));
      assert [rules[0]] + rules[1..] == rules;
    }
  }

  /** Decode after Encode returns the rules, stably sorted by Sequence. */
  lemma DecodeInvertsEncode(rules: seq<Rule>)
    ensures Decoded(Encoded(rules)) == Ok(StableSort(rules))
  {
    MetaOfConcatenated(StableSort(rules));
  }

  function Erased(addresses: seq<Address>): seq<Address> { Map(addresses, (a: Address) => Address("", a.email)) }

  lemma LowerNames()
    ensures ToLower("subject") == "subject" && ToLower("from") == "from" && ToLower("to") == "to"
  {
    assert "subject" == ['s', 'u', 'b', 'j', 'e', 'c', 't'] && "from" == ['f', 'r', 'o', 'm'] && "to" == ['t', 'o'];
    LowerFixed("subject");
    LowerFixed("from");
    LowerFixed("to");
  }

  lemma {:induction false} LowerFixed(s: string)
    requires forall c :: c in s ==> !('A' <= c <= 'Z')
    ensures ToLower(s) == s
  {
    if s != "" {
      assert s[0] in s;
      assert forall c :: c in s[1..] ==> c in s;
      LowerFixed(s[1..]);
      assert s == [s[0]] + s[1..];
    }
  }

  lemma {:induction false} FoldTestsAppend(a: seq<Test>, b: seq<Test>, c: Conditions)
    ensures FoldTests(a + b, c) == FoldTests(b, FoldTests(a, c))
  {
    if a == [] {
      assert a + b == b;
    } else {
      assert (a + b)[1..] == a[1..] + b;
      FoldTestsAppend(a[1..], b, FoldTest(a[0], c));
    }
  }

  lemma FoldOne(t: Test, c: Conditions)
    ensures FoldTests([t], c) == FoldTest(t, c) && FoldTests([], c) == c
  {
    assert [t][1..] == [];
  }

  lemma FoldOptional(before: seq<Test>, populated: bool, t: Test, c: Conditions)
    ensures FoldTests(before + (if populated then [t] else []), c) ==
            if populated then FoldTest(t, FoldTests(before, c)) else FoldTests(before, c)
  {
    FoldTestsAppend(before, if populated then [t] else [], c);
    FoldOne(t, FoldTests(before, c));
  }

  lemma ReadHeaders(acc: Conditions, keys: seq<string>)
    ensures acc.subject == [] ==> FoldTest(HeaderTest(Contains, ["subject"], keys), acc) == acc.(subject := keys)
    ensures acc.sender == [] ==> FoldTest(HeaderTest(Contains, ["from"], keys), acc) == acc.(sender := keys)
    ensures acc.body == [] ==> FoldTest(BodyTest(Contains, keys), acc) == acc.(body := keys)
  {
    LowerNames();
    assert [] + keys == keys;
  }

  lemma ReadAddresses(acc: Conditions, addresses: seq<Address>)
    ensures acc.from == [] ==> FoldTest(AddressTest(Is, ["from"], Emails(addresses)), acc) == acc.(from := Erased(addresses))
    ensures acc.sentTo == [] ==> FoldTest(AddressTest(Is, ["to"], Emails(addresses)), acc) == acc.(sentTo := Erased(addresses))
  {
    LowerNames();
    assert Addresses(Emails(addresses)) == Erased(addresses);
    assert [] + Erased(addresses) == Erased(addresses);
  }

  lemma FoldStep(before: seq<Test>, populated: bool, t: Test, c: Conditions, mid: Conditions, after: Conditions)
    requires FoldTests(before, c) == mid && after == if populated then FoldTest(t, mid) else mid
    ensures FoldTests(before + (if populated then [t] else []), c) == after
  {
    FoldOptional(before, populated, t, c);
  }

  lemma FieldTestsFold(c: Conditions)
    ensures FoldTests(FieldTests(c), NO_CONDITIONS) == c.(from := Erased(c.from), sentTo := Erased(c.sentTo))
  {
    var headers := HeaderTests(c);
    var c3 := NO_CONDITIONS.(subject := c.subject, sender := c.sender, body := c.body);
    var c4 := c3.(from := Erased(c.from));
    HeaderTestsFold(c);
    ReadAddresses(c3, c.from);
    FoldStep(headers, c.from != [], AddressTest(Is, ["from"], Emails(c.from)), NO_CONDITIONS, c3, c4);
    ReadAddresses(c4, c.sentTo);
    var t4 := headers + if c.from != [] then [AddressTest(Is, ["from"], Emails(c.from))] else [];
    FoldStep(t4, c.sentTo != [], AddressTest(Is, ["to"], Emails(c.sentTo)), NO_CONDITIONS, c4, c4.(sentTo := Erased(c.sentTo)));
  }

  function HeaderTests(c: Conditions): seq<Test> {
    (if c.subject != [] then [HeaderTest(Contains, ["subject"], c.subject)] else []) +
    (if c.sender != [] then [HeaderTest(Contains, ["from"], c.sender)] else []) +
    (if c.body != [] then [BodyTest(Contains, c.body)] else [])
  }

  lemma HeaderTestsFold(c: Conditions)
    ensures FoldTests(HeaderTests(c), NO_CONDITIONS) == NO_CONDITIONS.(subject := c.subject, sender := c.sender, body := c.body)
  {
    var c1 := NO_CONDITIONS.(subject := c.subject);
    var c2 := c1.(sender := c.sender);
    var t1 := if c.subject != [] then [HeaderTest(Contains, ["subject"], c.subject)] else [];
    var t2 := t1 + if c.sender != [] then [HeaderTest(Contains, ["from"], c.sender)] else [];
    ReadHeaders(NO_CONDITIONS, c.subject);
    FoldStep([], c.subject != [], HeaderTest(Contains, ["subject"], c.subject), NO_CONDITIONS, NO_CONDITIONS, c1);
    assert [] + t1 == t1;
    ReadHeaders(c1, c.sender);
    FoldStep(t1, c.sender != [], HeaderTest(Contains, ["from"], c.sender), NO_CONDITIONS, c1, c2);
    ReadHeaders(c2, c.body);
    FoldStep(t2, c.body != [], BodyTest(Contains, c.body), NO_CONDITIONS, c2, c2.(body := c.body));
  }

  /** The structural reader inverts the condition compiler, display names erased. */
  lemma TestInverts(c: Conditions)
    ensures FoldTest(BuildTest(c), NO_CONDITIONS) == c.(from := Erased(c.from), sentTo := Erased(c.sentTo))
  {
    FieldTestsFold(c);
    var tests := FieldTests(c);
    if |tests| == 1 {
      FoldOne(tests[0], NO_CONDITIONS);
      assert tests == [tests[0]];
    }
  }

  lemma {:induction false} FoldCommandsAppend(a: seq<Command>, b: seq<Command>, acts: Actions)
    ensures FoldCommands(a + b, acts) == FoldCommands(b, FoldCommands(a, acts))
  {
    if b == [] {
      assert a + b == a;
    } else {
      assert (a + b)[..|a + b| - 1] == a + b[..|b| - 1];
      FoldCommandsAppend(a, b[..|b| - 1], acts);
    }
  }

  lemma {:induction false} FoldRedirects(addresses: seq<Address>, copying: bool, acts: Actions)
    ensures FoldCommands(Redirects(addresses, copying), acts) ==
            if copying then acts.(forward := acts.forward + Erased(addresses)) else acts.(redirect := acts.redirect + Erased(addresses))
  {
    if addresses == [] {
      assert acts.forward + [] == acts.forward && acts.redirect + [] == acts.redirect;
    } else {
      var init, last := addresses[..|addresses| - 1], addresses[|addresses| - 1];
      FoldRedirects(init, copying, acts);
      var all := Redirects(addresses, copying);
      assert all[..|all| - 1] == Redirects(init, copying);
      assert Erased(addresses) == Erased(init) + [Address("", last.email)];
      if copying {
        assert acts.forward + Erased(init) + [Address("", last.email)] == acts.forward + Erased(addresses);
      } else {
        assert acts.redirect + Erased(init) + [Address("", last.email)] == acts.redirect + Erased(addresses);
      }
    }
  }

  lemma FoldFiling(a: Actions)
    ensures FoldCommands(Filing(a), NO_ACTIONS) == NO_ACTIONS.(move := a.move, copy := a.copy, markRead := a.markRead)
  {
    var moved := NO_ACTIONS.(move := a.move);
    var copied := moved.(copy := a.copy);
    var x := if a.move != "" then [FileInto(a.move, false)] else [];
    var y := if a.copy != "" then [FileInto(a.copy, true)] else [];
    FoldMaybe([], a.move != "", FileInto(a.move, false), NO_ACTIONS, NO_ACTIONS, moved);
    assert [] + x == x;
    FoldMaybe(x, a.copy != "", FileInto(a.copy, true), NO_ACTIONS, moved, copied);
    assert SEEN in [SEEN];
    FoldMaybe(x + y, a.markRead, AddFlag([SEEN]), NO_ACTIONS, copied, copied.(markRead := a.markRead));
  }

  lemma FoldMaybe(before: seq<Command>, here: bool, cmd: Command, acts: Actions, mid: Actions, after: Actions)
    requires FoldCommands(before, acts) == mid && after == if here then FoldCommand(cmd, mid) else mid
    ensures FoldCommands(before + (if here then [cmd] else []), acts) == after
  {
    if here {
      assert (before + [cmd])[..|before|] == before;
    } else {
      assert before + [] == before;
    }
  }

  lemma FoldEnding(a: Actions, acts: Actions)
    requires !acts.delete && !acts.stop
    ensures FoldCommands(Ending(a), acts) == acts.(delete := a.delete, stop := a.stop)
  {
    var x := if a.delete then [Discard] else [];
    FoldMaybe([], a.delete, Discard, acts, acts, acts.(delete := a.delete));
    assert [] + x == x;
    FoldMaybe(x, a.stop, Stop, acts, acts.(delete := a.delete), acts.(delete := a.delete, stop := a.stop));
  }

  /** The structural reader inverts the action compiler, display names erased. */
  lemma ActionsInvert(a: Actions)
    ensures FoldCommands(BuiltActions(a), NO_ACTIONS) == a.(forward := Erased(a.forward), redirect := Erased(a.redirect))
  {
    var filing, forwards, redirects := Filing(a), Redirects(a.forward, true), Redirects(a.redirect, false);
    FoldCommandsAppend(filing + forwards + redirects, Ending(a), NO_ACTIONS);
    FoldCommandsAppend(filing + forwards, redirects, NO_ACTIONS);
    FoldCommandsAppend(filing, forwards, NO_ACTIONS);
    FoldFiling(a);
    var filed := NO_ACTIONS.(move := a.move, copy := a.copy, markRead := a.markRead);
    FoldRedirects(a.forward, true, filed);
    FoldRedirects(a.redirect, false, filed.(forward := Erased(a.forward)));
    FoldEnding(a, filed.(forward := Erased(a.forward), redirect := Erased(a.redirect)));
    assert [] + Erased(a.forward) == Erased(a.forward) && [] + Erased(a.redirect) == Erased(a.redirect);
  }

  // ---- Running a script ----

  /** A delivered message, as the tests of RFC 5228 see it. */
  datatype Message = Message(header: (Match, string, string) -> bool, body: (Match, string) -> bool,
                             address: (Match, string, string) -> bool, other: string -> bool)

  ghost predicate Holds(t: Test, m: Message) {
    match t
    case True => true
    case AllOf(tests) => forall s :: s in tests ==> Holds(s, m)
    case HeaderTest(how, headers, keys) => exists h, k :: h in headers && k in keys && m.header(how, h, k)
    case BodyTest(how, keys) => exists k :: k in keys && m.body(how, k)
    case AddressTest(how, headers, keys) => exists h, k :: h in headers && k in keys && m.address(how, h, k)
    case OtherTest(text) => m.other(text)
  }

  datatype Effect = Filed(folder: string) | Copied(folder: string) | Flagged(flags: seq<string>) | FlagsSet(flags: seq<string>)
                  | Forwarded(email: string) | Redirected(email: string) | Discarded | Did(name: string)

  datatype Trace = Trace(effects: seq<Effect>, halted: bool)

  ghost function Execute(cmds: seq<Command>, m: Message): Trace {
    if cmds == [] then Trace([], false)
    else
      match cmds[0]
      case Stop => Trace([], true)
      case Comment(_) => Execute(cmds[1..], m)
      case If(test, body, orElse) => Then(if Holds(test, m) then Execute(body, m) else Execute(orElse, m), Execute(cmds[1..], m))
      case FileInto(mailbox, copying) => Then(Trace([if copying then Copied(mailbox) else Filed(mailbox)], false), Execute(cmds[1..], m))
      case AddFlag(flags) => Then(Trace([Flagged(flags)], false), Execute(cmds[1..], m))
      case SetFlag(flags) => Then(Trace([FlagsSet(flags)], false), Execute(cmds[1..], m))
      case Redirect(address, copying) => Then(Trace([if copying then Forwarded(address) else Redirected(address)], false), Execute(cmds[1..], m))
      case Discard => Then(Trace([Discarded], false), Execute(cmds[1..], m))
      case OtherCommand(name) => Then(Trace([Did(name)], false), Execute(cmds[1..], m))
  }

  function Then(a: Trace, b: Trace): Trace { if a.halted then a else Trace(a.effects + b.effects, b.halted) }

  lemma {:induction false} ExecuteAppend(a: seq<Command>, b: seq<Command>, m: Message)
    ensures Execute(a + b, m) == Then(Execute(a, m), Execute(b, m))
  {
    if a == [] {
      assert a + b == b;
    } else {
      assert (a + b)[1..] == a[1..] + b;
      ExecuteAppend(a[1..], b, m);
      ThenAssociative(a, b, m);
    }
  }

  lemma ThenAssociative(a: seq<Command>, b: seq<Command>, m: Message)
    requires a != [] && Execute(a[1..] + b, m) == Then(Execute(a[1..], m), Execute(b, m)) && (a + b)[1..] == a[1..] + b
    ensures Execute(a + b, m) == Then(Execute(a, m), Execute(b, m))
  {
    assert (a + b)[0] == a[0];
    forall first: Trace {
      ThenTwice(first, Execute(a[1..], m), Execute(b, m));
    }
  }

  lemma ThenTwice(x: Trace, y: Trace, z: Trace)
    ensures Then(x, Then(y, z)) == Then(Then(x, y), z)
  {
    assert x.effects + (y.effects + z.effects) == x.effects + y.effects + z.effects;
  }

  // ---- The rules themselves ----

  /** Every populated field matches, by any of its values. */
  ghost predicate Fires(c: Conditions, m: Message) {
    && (c.subject == [] || exists k :: k in c.subject && m.header(Contains, "subject", k))
    && (c.sender == [] || exists k :: k in c.sender && m.header(Contains, "from", k))
    && (c.body == [] || exists k :: k in c.body && m.body(Contains, k))
    && (c.from == [] || exists a :: a in c.from && m.address(Is, "from", a.email))
    && (c.sentTo == [] || exists a :: a in c.sentTo && m.address(Is, "to", a.email))
  }

  function Does(a: Actions): seq<Effect> {
    (if a.move != "" then [Filed(a.move)] else []) + (if a.copy != "" then [Copied(a.copy)] else []) +
    (if a.markRead then [Flagged([SEEN])] else []) +
    Map(a.forward, (x: Address) => Forwarded(x.email)) + Map(a.redirect, (x: Address) => Redirected(x.email)) +
    (if a.delete then [Discarded] else [])
  }

  /** The effects of the rules in the given order, enabled ones only, up to a firing stop rule. */
  ghost function Interpret(rules: seq<Rule>, m: Message): seq<Effect> {
    if rules == [] then []
    else if !rules[0].enabled || !Fires(rules[0].conditions, m) then Interpret(rules[1..], m)
    else Does(rules[0].actions) + if rules[0].actions.stop then [] else Interpret(rules[1..], m)
  }

  lemma OneHeader(name: string, keys: seq<string>, m: Message)
    ensures Holds(HeaderTest(Contains, [name], keys), m) <==> exists k :: k in keys && m.header(Contains, name, k)
  {
    if k :| k in keys && m.header(Contains, name, k) {
      assert name in [name];
    }
  }

  lemma OneAddress(name: string, addresses: seq<Address>, m: Message)
    ensures Holds(AddressTest(Is, [name], Emails(addresses)), m) <==> exists a :: a in addresses && m.address(Is, name, a.email)
  {
    var keys := Emails(addresses);
    if a :| a in addresses && m.address(Is, name, a.email) {
      var i :| 0 <= i < |addresses| && addresses[i] == a;
      assert name in [name] && keys[i] in keys;
    }
    if k :| k in keys && m.address(Is, name, k) {
      var i :| 0 <= i < |keys| && keys[i] == k;
      assert addresses[i] in addresses;
    }
  }

  lemma AllOfFields(c: Conditions, m: Message)
    ensures Holds(BuildTest(c), m) <==> forall t :: t in FieldTests(c) ==> Holds(t, m)
  {
    var tests := FieldTests(c);
    if |tests| == 1 {
      assert tests[0] in tests;
      assert tests == [tests[0]];
    }
  }

  /** The compiled test holds of exactly the messages the conditions describe. */
  lemma TestMeansConditions(c: Conditions, m: Message)
    ensures Holds(BuildTest(c), m) <==> Fires(c, m)
  {
    AllOfFields(c, m);
    FieldsHold(c, m);
    OneHeader("subject", c.subject, m);
    OneHeader("from", c.sender, m);
    OneAddress("from", c.from, m);
    OneAddress("to", c.sentTo, m);
  }

  lemma FieldsHold(c: Conditions, m: Message)
    ensures (forall t :: t in FieldTests(c) ==> Holds(t, m)) <==>
            && (c.subject == [] || Holds(HeaderTest(Contains, ["subject"], c.subject), m))
            && (c.sender == [] || Holds(HeaderTest(Contains, ["from"], c.sender), m))
            && (c.body == [] || Holds(BodyTest(Contains, c.body), m))
            && (c.from == [] || Holds(AddressTest(Is, ["from"], Emails(c.from)), m))
            && (c.sentTo == [] || Holds(AddressTest(Is, ["to"], Emails(c.sentTo)), m))
  {
    assert forall t :: t in FieldTests(c) <==>
      (c.subject != [] && t == HeaderTest(Contains, ["subject"], c.subject)) ||
      (c.sender != [] && t == HeaderTest(Contains, ["from"], c.sender)) ||
      (c.body != [] && t == BodyTest(Contains, c.body)) ||
      (c.from != [] && t == AddressTest(Is, ["from"], Emails(c.from))) ||
      (c.sentTo != [] && t == AddressTest(Is, ["to"], Emails(c.sentTo)));
  }

  lemma {:induction false} RedirectsRun(addresses: seq<Address>, copying: bool, m: Message)
    ensures Execute(Redirects(addresses, copying), m) ==
            Trace(Map(addresses, (x: Address) => if copying then Forwarded(x.email) else Redirected(x.email)), false)
  {
    if addresses != [] {
      assert Redirects(addresses, copying)[1..] == Redirects(addresses[1..], copying);
      RedirectsRun(addresses[1..], copying, m);
    }
  }

  lemma OneRuns(cmd: Command, m: Message)
    ensures Execute([], m) == Trace([], false)
    ensures cmd.FileInto? ==> Execute([cmd], m) == Trace([if cmd.copying then Copied(cmd.mailbox) else Filed(cmd.mailbox)], false)
    ensures cmd.AddFlag? ==> Execute([cmd], m) == Trace([Flagged(cmd.flags)], false)
    ensures cmd.Discard? ==> Execute([cmd], m) == Trace([Discarded], false)
    ensures cmd.Stop? ==> Execute([cmd], m) == Trace([], true)
  {
    assert [cmd][1..] == [];
  }

  function FilingEffects(a: Actions): seq<Effect> {
    (if a.move != "" then [Filed(a.move)] else []) + (if a.copy != "" then [Copied(a.copy)] else []) +
    (if a.markRead then [Flagged([SEEN])] else [])
  }

  lemma FilingRuns(a: Actions, m: Message)
    ensures Execute(Filing(a), m) == Trace(FilingEffects(a), false)
  {
    var x, y := if a.move != "" then [FileInto(a.move, false)] else [], if a.copy != "" then [FileInto(a.copy, true)] else [];
    var z := if a.markRead then [AddFlag([SEEN])] else [];
    ExecuteAppend(x + y, z, m);
    ExecuteAppend(x, y, m);
    OneRuns(FileInto(a.move, false), m);
    OneRuns(FileInto(a.copy, true), m);
    OneRuns(AddFlag([SEEN]), m);
  }

  lemma EndingRuns(a: Actions, m: Message)
    ensures Execute(Ending(a), m) == Trace(if a.delete then [Discarded] else [], a.stop)
  {
    var x, y := if a.delete then [Discard] else [], if a.stop then [Stop] else [];
    ExecuteAppend(x, y, m);
    OneRuns(Discard, m);
    OneRuns(Stop, m);
  }

  /** The compiled actions have the rule's effects, and halt exactly for a stop rule. */
  lemma ActionsRun(a: Actions, m: Message)
    ensures Execute(BuiltActions(a), m) == Trace(Does(a), a.stop)
  {
    var filing, forwards, redirects := Filing(a), Redirects(a.forward, true), Redirects(a.redirect, false);
    ExecuteAppend(filing + forwards + redirects, Ending(a), m);
    ExecuteAppend(filing + forwards, redirects, m);
    ExecuteAppend(filing, forwards, m);
    FilingRuns(a, m);
    RedirectsRun(a.forward, true, m);
    RedirectsRun(a.redirect, false, m);
    EndingRuns(a, m);
    assert Map(a.forward, (x: Address) => if true then Forwarded(x.email) else Redirected(x.email)) ==
           Map(a.forward, (x: Address) => Forwarded(x.email));
    assert Map(a.redirect, (x: Address) => if false then Forwarded(x.email) else Redirected(x.email)) ==
           Map(a.redirect, (x: Address) => Redirected(x.email));
  }

  lemma RuleRuns(r: Rule, m: Message)
    ensures Execute(RuleCommands(r), m) ==
            if r.enabled && Fires(r.conditions, m) then Trace(Does(r.actions), r.actions.stop) else Trace([], false)
  {
    var cmds := RuleCommands(r);
    if r.enabled {
      assert cmds[1..] == [If(BuildTest(r.conditions), BuiltActions(r.actions), [])] && cmds[1..][1..] == [];
      assert Execute(cmds[1..][1..], m) == Trace([], false);
      TestMeansConditions(r.conditions, m);
      ActionsRun(r.actions, m);
      assert Does(r.actions) + [] == Does(r.actions);
    } else {
      assert cmds[1..] == [];
    }
  }

  lemma {:induction false} ConcatenatedRuns(rules: seq<Rule>, m: Message)
    ensures Execute(Concatenated(rules), m).effects == Interpret(rules, m)
  {
    if rules != [] {
      ExecuteAppend(RuleCommands(rules[0]), Concatenated(rules[1..]), m);
      RuleRuns(rules[0], m);
      ConcatenatedRuns(rules[1..], m);
    }
  }

  /** The encoded script does to every message what the rules say in stable Sequence order. */
  lemma ScriptDoesWhatRulesSay(rules: seq<Rule>, m: Message)
    ensures Execute(Encoded(rules), m).effects == Interpret(StableSort(rules), m)
  {
    ConcatenatedRuns(StableSort(rules), m);
  }

  // ---- Disabled rules ----

  function Enabled(rules: seq<Rule>): seq<Rule> { Filter(rules, (r: Rule) => r.enabled) }

  lemma {:induction false} InterpretEnabled(rules: seq<Rule>, m: Message)
    ensures Interpret(rules, m) == Interpret(Enabled(rules), m)
  {
    if rules != [] {
      InterpretEnabled(rules[1..], m);
      assert rules == [rules[0]] + rules[1..];
      FilterAppend([rules[0]], rules[1..], (r: Rule) => r.enabled);
      if rules[0].enabled {
        assert Enabled(rules)[1..] == Enabled(rules[1..]);
      } else {
        assert Enabled(rules) == Enabled(rules[1..]);
      }
    }
  }

  lemma {:induction false} EnabledSorted(rules: seq<Rule>)
    requires Sorted(rules)
    ensures Sorted(Enabled(rules))
  {
    if rules != [] {
      var init := rules[..|rules| - 1];
      EnabledSorted(init);
      FilterElements(init, (r: Rule) => r.enabled);
      forall r | r in Enabled(init) ensures r.sequence <= rules[|rules| - 1].sequence {
        var i :| 0 <= i < |init| && init[i] == r;
      }
    }
  }

  lemma {:induction false} FiltersCommute(rules: seq<Rule>, p: Rule -> bool, q: Rule -> bool)
    ensures Filter(Filter(rules, p), q) == Filter(Filter(rules, q), p)
  {
    if rules != [] {
      var init, last := rules[..|rules| - 1], rules[|rules| - 1];
      FiltersCommute(init, p, q);
      FilterAppend(Filter(init, p), if p(last) then [last] else [], q);
      FilterAppend(Filter(init, q), if q(last) then [last] else [], p);
      assert Filter(init, p) + [] == Filter(init, p) && Filter(init, q) + [] == Filter(init, q);
    }
  }

  /** Disabled rules never affect what happens to a message: leaving them out gives the same effects. */
  lemma DisabledRulesDoNothing(rules: seq<Rule>, m: Message)
    ensures Execute(Encoded(rules), m).effects == Execute(Encoded(Enabled(rules)), m).effects
  {
    ScriptDoesWhatRulesSay(rules, m);
    ScriptDoesWhatRulesSay(Enabled(rules), m);
    StableSortSorts(rules);
    StableSortSorts(Enabled(rules));
    EnabledSorted(StableSort(rules));
    forall v ensures Filter(Enabled(StableSort(rules)), HasSequence(v)) == Filter(StableSort(Enabled(rules)), HasSequence(v)) {
      FiltersCommute(StableSort(rules), (r: Rule) => r.enabled, HasSequence(v));
      FiltersCommute(rules, (r: Rule) => r.enabled, HasSequence(v));
      assert Filter(StableSort(rules), HasSequence(v)) == Filter(rules, HasSequence(v));
    }
    StableOrderUnique(Enabled(StableSort(rules)), StableSort(Enabled(rules)));
    InterpretEnabled(StableSort(rules), m);
  }
}
