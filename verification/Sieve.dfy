/** internal/sieve/sieve.go: neutral inbox rules compiled to a Sieve script (RFC 5228), read back
    from its metadata comments, or imported from the shape of a foreign script. */
module Sieve {
  import opened Wrappers
  import opened Sequences
  import opened Decimal
  import opened Invitations

  datatype Conditions = Conditions(subject: seq<string>, sender: seq<string>, body: seq<string>,
                                   from: seq<Address>, sentTo: seq<Address>)

  datatype Actions = Actions(move: string, copy: string, markRead: bool, delete: bool,
                             forward: seq<Address>, redirect: seq<Address>, stop: bool)

  datatype Rule = Rule(id: string, name: string, sequence: int, enabled: bool, conditions: Conditions, actions: Actions)

  const NO_CONDITIONS: Conditions := Conditions([], [], [], [], [])
  const NO_ACTIONS: Actions := Actions("", "", false, false, [], [], false)
  const SEEN: string := "\\Seen"

  // ---- Scripts ----

  datatype Match = Contains | Is | OtherMatch(name: string)

  datatype Test =
    | True
    | AllOf(tests: seq<Test>)
    | HeaderTest(matching: Match, headers: seq<string>, keys: seq<string>)
    | BodyTest(matching: Match, keys: seq<string>)
    | AddressTest(matching: Match, headers: seq<string>, keys: seq<string>)
    | OtherTest(text: string)

  /** A comment: a rule in JSON behind the metadata prefix, something unreadable behind it, or
      any other comment. */
  datatype CommentText = Meta(rule: Rule) | BadMeta | Remark(text: string)

  datatype Command =
    | Comment(text: CommentText)
    | If(test: Test, body: seq<Command>, orElse: seq<Command>)
    | FileInto(mailbox: string, copying: bool)
    | AddFlag(flags: seq<string>)
    | SetFlag(flags: seq<string>)
    | Redirect(address: string, copying: bool)
    | Discard
    | Stop
    | OtherCommand(name: string)

  // ---- Compiling ----

  function Emails(addresses: seq<Address>): seq<string> { Map(addresses, (a: Address) => a.email) }

  function FieldTests(c: Conditions): seq<Test> {
    (if c.subject != [] then [HeaderTest(Contains, ["subject"], c.subject)] else []) +
    (if c.sender != [] then [HeaderTest(Contains, ["from"], c.sender)] else []) +
    (if c.body != [] then [BodyTest(Contains, c.body)] else []) +
    (if c.from != [] then [AddressTest(Is, ["from"], Emails(c.from))] else []) +
    (if c.sentTo != [] then [AddressTest(Is, ["to"], Emails(c.sentTo))] else [])
  }

  function BuildTest(c: Conditions): Test {
    var tests := FieldTests(c);
    if |tests| == 0 then True else if |tests| == 1 then tests[0] else AllOf(tests)
  }

  function Redirects(addresses: seq<Address>, copying: bool): seq<Command> {
    Map(addresses, (a: Address) => Redirect(a.email, copying))
  }

  function Filing(a: Actions): seq<Command> {
    (if a.move != "" then [FileInto(a.move, false)] else []) +
    (if a.copy != "" then [FileInto(a.copy, true)] else []) +
    (if a.markRead then [AddFlag([SEEN])] else [])
  }

  function Ending(a: Actions): seq<Command> {
    (if a.delete then [Discard] else []) + (if a.stop then [Stop] else [])
  }

  function BuiltActions(a: Actions): seq<Command> {
    Filing(a) + Redirects(a.forward, true) + Redirects(a.redirect, false) + Ending(a)
  }

  method BuildFiling(a: Actions) returns (cmds: seq<Command>)
    ensures cmds == Filing(a)
  {
    cmds := [];
    if a.move != "" {
      cmds := cmds + [FileInto(a.move, false)];
    }
    if a.copy != "" {
      cmds := cmds + [FileInto(a.copy, true)];
    }
    if a.markRead {
      cmds := cmds + [AddFlag([SEEN])];
    }
  }

  method BuildActions(a: Actions) returns (cmds: seq<Command>)
    ensures cmds == BuiltActions(a)
  {
    cmds := BuildFiling(a);
    cmds := AppendRedirects(cmds, a.forward, true);
    cmds := AppendRedirects(cmds, a.redirect, false);
    ghost var before := cmds;
    if a.delete {
      cmds := cmds + [Discard];
    }
    if a.stop {
      cmds := cmds + [Stop];
    }
    assert cmds == before + Ending(a);
  }

  method AppendRedirects(cmds: seq<Command>, addresses: seq<Address>, copying: bool) returns (out: seq<Command>)
    ensures out == cmds + Redirects(addresses, copying)
  {
    out := cmds;
    for i := 0 to |addresses|
      invariant out == cmds + Redirects(addresses[..i], copying)
    {
      assert Redirects(addresses[..i + 1], copying) == Redirects(addresses[..i], copying) + [Redirect(addresses[i].email, copying)];
      out := out + [Redirect(addresses[i].email, copying)];
    }
    assert addresses[..|addresses|] == addresses;
  }

  function Insert(r: Rule, rules: seq<Rule>): seq<Rule> {
    if rules == [] || rules[|rules| - 1].sequence <= r.sequence then rules + [r]
    else Insert(r, rules[..|rules| - 1]) + [rules[|rules| - 1]]
  }

  /** sort.SliceStable by Sequence. */
  function StableSort(rules: seq<Rule>): seq<Rule> {
    if rules == [] then [] else Insert(rules[|rules| - 1], StableSort(rules[..|rules| - 1]))
  }

  function RuleCommands(r: Rule): seq<Command> {
    [Comment(Meta(r))] + if r.enabled then [If(BuildTest(r.conditions), BuiltActions(r.actions), [])] else []
  }

  function Concatenated(rules: seq<Rule>): seq<Command> {
    if rules == [] then [] else RuleCommands(rules[0]) + Concatenated(rules[1..])
  }

  function Encoded(rules: seq<Rule>): seq<Command> { Concatenated(StableSort(rules)) }

  lemma {:induction false} ConcatenatedAppend(rules: seq<Rule>, r: Rule)
    ensures Concatenated(rules + [r]) == Concatenated(rules) + RuleCommands(r)
  {
    if rules == [] {
      assert [r][1..] == [];
    } else {
      assert (rules + [r])[1..] == rules[1..] + [r];
      ConcatenatedAppend(rules[1..], r);
    }
  }

  method Encode(rules: seq<Rule>) returns (cmds: seq<Command>)
    ensures cmds == Encoded(rules)
  {
    var ordered := StableSort(rules);
    cmds := [];
    for i := 0 to |ordered|
      invariant cmds == Concatenated(ordered[..i])
    {
      assert ordered[..i + 1] == ordered[..i] + [ordered[i]];
      ConcatenatedAppend(ordered[..i], ordered[i]);
      cmds := cmds + [Comment(Meta(ordered[i]))];
      if ordered[i].enabled {
        var body := BuildActions(ordered[i].actions);
        cmds := cmds + [If(BuildTest(ordered[i].conditions), body, [])];
      }
    }
    assert ordered[..|ordered|] == ordered;
  }

  // ---- Reading back ----

  function Addresses(emails: seq<string>): seq<Address> { Map(emails, (e: string) => Address("", e)) }

  function FirstLower(ss: seq<string>): string { if ss == [] then "" else ToLower(ss[0]) }

  predicate HasSeen(flags: seq<string>) { exists f :: f in flags && ToLower(f) == ToLower(SEEN) }

  function FoldTest(t: Test, c: Conditions): Conditions
    decreases t
  {
    match t
    case AllOf(tests) => FoldTests(tests, c)
    case HeaderTest(m, headers, keys) =>
      if m != Contains then c
      else if FirstLower(headers) == "subject" then c.(subject := c.subject + keys)
      else if FirstLower(headers) == "from" then c.(sender := c.sender + keys)
      else c
    case BodyTest(m, keys) => if m != Contains then c else c.(body := c.body + keys)
    case AddressTest(m, headers, keys) =>
      if m != Is then c
      else if FirstLower(headers) == "from" then c.(from := c.from + Addresses(keys))
      else if FirstLower(headers) == "to" then c.(sentTo := c.sentTo + Addresses(keys))
      else c
    case _ => c
  }

  function FoldTests(tests: seq<Test>, c: Conditions): Conditions
    decreases tests
  {
    if tests == [] then c else FoldTests(tests[1..], FoldTest(tests[0], c))
  }

  function FoldCommand(cmd: Command, a: Actions): Actions {
    match cmd
    case FileInto(mailbox, copying) => if copying then a.(copy := mailbox) else a.(move := mailbox)
    case AddFlag(flags) => if HasSeen(flags) then a.(markRead := true) else a
    case SetFlag(flags) => if HasSeen(flags) then a.(markRead := true) else a
    case Redirect(address, copying) =>
      if copying then a.(forward := a.forward + [Address("", address)]) else a.(redirect := a.redirect + [Address("", address)])
    case Discard => a.(delete := true)
    case Stop => a.(stop := true)
    case _ => a
  }

  function FoldCommands(cmds: seq<Command>, a: Actions): Actions {
    if cmds == [] then a else FoldCommand(cmds[|cmds| - 1], FoldCommands(cmds[..|cmds| - 1], a))
  }

  /** The rule under construction, written through by the two importers. */
  class Draft {
    var conditions: Conditions
    var actions: Actions

    constructor ()
      ensures conditions == NO_CONDITIONS && actions == NO_ACTIONS
    {
      conditions, actions := NO_CONDITIONS, NO_ACTIONS;
    }

    method ConditionsFromTest(t: Test)
      modifies this
      ensures conditions == FoldTest(t, old(conditions)) && actions == old(actions)
      decreases t
    {
      match t
      case AllOf(tests) =>
        for i := 0 to |tests|
          invariant actions == old(actions)
          invariant FoldTests(tests[i..], conditions) == FoldTest(t, old(conditions))
        {
          assert tests[i..][1..] == tests[i + 1..];
          ConditionsFromTest(tests[i]);
        }
      case HeaderTest(m, headers, keys) =>
        if m != Contains {
          return;
        }
        if FirstLower(headers) == "subject" {
          conditions := conditions.(subject := conditions.subject + keys);
        } else if FirstLower(headers) == "from" {
          conditions := conditions.(sender := conditions.sender + keys);
        }
      case BodyTest(m, keys) =>
        if m != Contains {
          return;
        }
        conditions := conditions.(body := conditions.body + keys);
      case AddressTest(m, headers, keys) =>
        if m != Is {
          return;
        }
        if FirstLower(headers) == "from" {
          conditions := conditions.(from := conditions.from + Addresses(keys));
        } else if FirstLower(headers) == "to" {
          conditions := conditions.(sentTo := conditions.sentTo + Addresses(keys));
        }
      case _ =>
    }

    method ActionsFromCommands(cmds: seq<Command>)
      modifies this
      ensures actions == FoldCommands(cmds, old(actions)) && conditions == old(conditions)
    {
      for i := 0 to |cmds|
        invariant conditions == old(conditions) && actions == FoldCommands(cmds[..i], old(actions))
      {
        assert cmds[..i + 1][..i] == cmds[..i];
        actions := FoldCommand(cmds[i], actions);
      }
      assert cmds[..|cmds|] == cmds;
    }
  }

  function Imported(test: Test, body: seq<Command>, index: nat): Rule {
    Rule("rule-" + Format(index + 1), "Rule " + Format(index + 1), index + 1, true,
         FoldTest(test, NO_CONDITIONS), FoldCommands(body, NO_ACTIONS))
  }

  datatype Error = BadMetadata

  function MetaRules(script: seq<Command>): Result<seq<Rule>, Error> {
    if script == [] then Ok([])
    else
      var before, last := MetaRules(script[..|script| - 1]), script[|script| - 1];
      if before.Err? || !last.Comment? then before
      else match last.text
        case Meta(rule) => Ok(before.value + [rule])
        case BadMeta => Err(BadMetadata)
        case Remark(_) => before
  }

  function ImportedRules(script: seq<Command>): seq<Rule> {
    if script == [] then []
    else
      var before, last := ImportedRules(script[..|script| - 1]), script[|script| - 1];
      if last.If? then before + [Imported(last.test, last.body, |before|)] else before
  }

  function Decoded(script: seq<Command>): Result<seq<Rule>, Error> {
    var meta := MetaRules(script);
    if meta.Err? || meta.value != [] then meta else Ok(ImportedRules(script))
  }

  lemma {:induction false} MetaRulesAppend(a: seq<Command>, b: seq<Command>)
    ensures MetaRules(a).Err? ==> MetaRules(a + b) == MetaRules(a)
    ensures MetaRules(a).Ok? && MetaRules(b).Err? ==> MetaRules(a + b) == MetaRules(b)
    ensures MetaRules(a).Ok? && MetaRules(b).Ok? ==> MetaRules(a + b) == Ok(MetaRules(a).value + MetaRules(b).value)
  {
    if b == [] {
      assert a + b == a;
      assert MetaRules(a).Ok? ==> MetaRules(a).value + [] == MetaRules(a).value;
    } else {
      assert (a + b)[..|a + b| - 1] == a + b[..|b| - 1];
      MetaRulesAppend(a, b[..|b| - 1]);
      var before, rest, last := MetaRules(a), MetaRules(b[..|b| - 1]), b[|b| - 1];
      if before.Ok? && rest.Ok? && last.Comment? && last.text.Meta? {
        assert before.value + (rest.value + [last.text.rule]) == before.value + rest.value + [last.text.rule];
      }
    }
  }

  method Decode(script: seq<Command>) returns (res: Result<seq<Rule>, Error>)
    ensures res == Decoded(script)
  {
    var fromMeta := [];
    for i := 0 to |script|
      invariant MetaRules(script[..i]) == Ok(fromMeta)
    {
      assert script[..i + 1][..i] == script[..i];
      if script[i].Comment? {
        if script[i].text.BadMeta? {
          assert script == script[..i + 1] + script[i + 1..];
          MetaRulesAppend(script[..i + 1], script[i + 1..]);
          return Err(BadMetadata);
        }
        if script[i].text.Meta? {
          fromMeta := fromMeta + [script[i].text.rule];
        }
      }
    }
    assert script[..|script|] == script;
    if fromMeta != [] {
      return Ok(fromMeta);
    }
    var rules := [];
    for i := 0 to |script|
      invariant rules == ImportedRules(script[..i])
    {
      assert script[..i + 1][..i] == script[..i];
      if script[i].If? {
        var draft := new Draft();
        draft.ConditionsFromTest(script[i].test);
        draft.ActionsFromCommands(script[i].body);
        rules := rules + [Rule("rule-" + Format(|rules| + 1), "Rule " + Format(|rules| + 1), |rules| + 1, true,
                               draft.conditions, draft.actions)];
      }
    }
    assert script[..|script|] == script;
    return Ok(rules);
  }
}
