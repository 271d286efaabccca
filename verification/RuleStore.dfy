/** internal/mailfilter/mailfilter.go: create, read, update and delete of inbox rules over one
    stored Sieve script. */
module RuleStore {
  import opened Wrappers
  import opened Sequences
  import opened Decimal
  import opened Invitations
  import opened Sieve
  import opened SieveLaws

  /** What the ScriptStore holds. */
  datatype Stored = NoScript | Unparsable | Script(cmds: seq<Command>)

  datatype Failure = ReadFailed | BadScript | NotFound | WriteFailed

  function Listing(s: Stored): Result<seq<Rule>, Failure> {
    match s
    case NoScript => Ok([])
    case Unparsable => Err(BadScript)
    case Script(cmds) => if Decoded(cmds).Ok? then Ok(Decoded(cmds).value) else Err(BadScript)
  }

  function Ids(rules: seq<Rule>): set<string> { set r | r in rules :: r.id }

  function ById(rules: seq<Rule>, id: string): Option<Rule> {
    if rules == [] then None else if rules[0].id == id then Some(rules[0]) else ById(rules[1..], id)
  }

  // ---- Fresh ids ----

  function NumberedId(n: nat): string { "rule-" + Format(n) }

  lemma NumberedIdInjective(m: nat, n: nat)
    ensures NumberedId(m) == NumberedId(n) ==> m == n
  {
    assert NumberedId(m)[5..] == Format(m) && NumberedId(n)[5..] == Format(n);
    if NumberedId(m) == NumberedId(n) {
      FormatInjective(m, n);
    }
  }

  predicate LowestUnused(rules: seq<Rule>, n: nat) {
    n >= 1 && NumberedId(n) !in Ids(rules) && forall m :: 1 <= m < n ==> NumberedId(m) in Ids(rules)
  }

  lemma {:induction false} IdCount(rules: seq<Rule>)
    ensures |Ids(rules)| <= |rules|
  {
    if rules != [] {
      IdCount(rules[1..]);
      assert rules == [rules[0]] + rules[1..];
      assert Ids(rules) == Ids(rules[1..]) + {rules[0].id};
    }
  }

  lemma {:induction false} NumbersUsed(ids: set<string>, n: nat)
    requires forall m :: 1 <= m <= n ==> NumberedId(m) in ids
    ensures n <= |ids|
  {
    if n > 0 {
      forall m | 1 <= m <= n - 1 ensures NumberedId(m) in ids - {NumberedId(n)} {
        NumberedIdInjective(m, n);
      }
      NumbersUsed(ids - {NumberedId(n)}, n - 1);
    }
  }

  /** freshID: the search ends within one more try than there are rules. */
  method FreshId(rules: seq<Rule>) returns (id: string)
    ensures exists n: nat :: n <= |rules| + 1 && LowestUnused(rules, n) && id == NumberedId(n)
  {
    var used := {};
    for i := 0 to |rules|
      invariant used == Ids(rules[..i])
    {
      assert rules[..i + 1] == rules[..i] + [rules[i]];
      used := used + {rules[i].id};
    }
    assert rules[..|rules|] == rules;
    var k := 1;
    IdCount(rules);
    while NumberedId(k) in used
      invariant 1 <= k <= |rules| + 1
      invariant forall m :: 1 <= m < k ==> NumberedId(m) in used
      decreases |rules| + 1 - k
    {
      NumbersUsed(used, k);
      k := k + 1;
    }
    return NumberedId(k);
  }

  // ---- Sequences ----

  /** The int of a 64-bit platform. */
  function Wrap(n: int): int { (n + TWO63) % TWO64 - TWO63 }

  function MaxSequence(rules: seq<Rule>): int {
    if rules == [] then 0
    else
      var before, last := MaxSequence(rules[..|rules| - 1]), rules[|rules| - 1].sequence;
      if last > before then last else before
  }

  method FindMaxSequence(rules: seq<Rule>) returns (max: int)
    ensures max == MaxSequence(rules)
  {
    max := 0;
    for i := 0 to |rules|
      invariant max == MaxSequence(rules[..i])
    {
      assert rules[..i + 1][..i] == rules[..i];
      if rules[i].sequence > max {
        max := rules[i].sequence;
      }
    }
    assert rules[..|rules|] == rules;
  }

  lemma {:induction false} MaxSequenceIsMaximum(rules: seq<Rule>)
    ensures MaxSequence(rules) >= 0 && forall r :: r in rules ==> r.sequence <= MaxSequence(rules)
    ensures MaxSequence(rules) > 0 ==> exists r :: r in rules && r.sequence == MaxSequence(rules)
  {
    if rules != [] {
      MaxSequenceIsMaximum(rules[..|rules| - 1]);
      assert rules == rules[..|rules| - 1] + [rules[|rules| - 1]];
    }
  }

  // ---- The operations ----

  function Numbered(rules: seq<Rule>, rule: Rule, n: nat): Rule {
    rule.(id := NumberedId(n), sequence := if rule.sequence == 0 then Wrap(MaxSequence(rules) + 1) else rule.sequence)
  }

  function Replaced(rules: seq<Rule>, id: string, rule: Rule): seq<Rule> {
    if rules == [] then []
    else if rules[0].id == id then [rule.(id := id)] + rules[1..]
    else [rules[0]] + Replaced(rules[1..], id, rule)
  }

  function Without(rules: seq<Rule>, id: string): seq<Rule> { Filter(rules, (r: Rule) => r.id != id) }

  lemma {:induction false} FoundAt(rules: seq<Rule>, i: nat, id: string, rule: Rule)
    requires i < |rules| && rules[i].id == id && forall j :: 0 <= j < i ==> rules[j].id != id
    ensures ById(rules, id) == Some(rules[i]) && Replaced(rules, id, rule) == rules[i := rule.(id := id)]
  {
    if i > 0 {
      FoundAt(rules[1..], i - 1, id, rule);
      assert [rules[0]] + rules[1..][i - 1 := rule.(id := id)] == rules[i := rule.(id := id)];
    } else {
      assert [rule.(id := id)] + rules[1..] == rules[0 := rule.(id := id)];
    }
  }

  lemma {:induction false} NotThere(rules: seq<Rule>, id: string)
    requires forall j :: 0 <= j < |rules| ==> rules[j].id != id
    ensures ById(rules, id).None?
  {
    if rules != [] {
      NotThere(rules[1..], id);
    }
  }

  class Client {
    var stored: Stored
    /** How many times the store was written. */
    var writes: nat

    constructor (stored: Stored)
      ensures this.stored == stored && writes == 0
    {
      this.stored, writes := stored, 0;
    }

    method List(readable: bool) returns (res: Result<seq<Rule>, Failure>)
      ensures res == if readable then Listing(stored) else Err(ReadFailed)
    {
      if !readable {
        return Err(ReadFailed);
      }
      match stored {
        case NoScript => return Ok([]);
        case Unparsable => return Err(BadScript);
        case Script(cmds) =>
          var rules := Decode(cmds);
          return if rules.Ok? then Ok(rules.value) else Err(BadScript);
      }
    }

    method Get(id: string, readable: bool) returns (res: Result<Rule, Failure>)
      ensures !readable ==> res == Err(ReadFailed)
      ensures readable && Listing(stored).Err? ==> res == Err(Listing(stored).error)
      ensures readable && Listing(stored).Ok? ==>
                res == match ById(Listing(stored).value, id) case Some(r) => Ok(r) case None => Err(NotFound)
    {
      var listed := List(readable);
      if listed.Err? {
        return Err(listed.error);
      }
      var rules := listed.value;
      for i := 0 to |rules|
        invariant ById(rules, id) == ById(rules[i..], id)
      {
        assert rules[i..][1..] == rules[i + 1..];
        if rules[i].id == id {
          return Ok(rules[i]);
        }
      }
      return Err(NotFound);
    }

    /** The whole script is rewritten; a refused write leaves it. */
    method Write(rules: seq<Rule>, writable: bool) returns (ok: bool)
      modifies this
      ensures ok == writable
      ensures stored == if writable then Script(Encoded(rules)) else old(stored)
      ensures writes == old(writes) + if writable then 1 else 0
    {
      var cmds := Encode(rules);
      if !writable {
        return false;
      }
      stored, writes := Script(cmds), writes + 1;
      return true;
    }

    method Create(rule: Rule, readable: bool, writable: bool) returns (res: Result<Rule, Failure>)
      modifies this
      ensures res.Ok? <==> readable && Listing(old(stored)).Ok? && writable
      ensures res.Err? ==> stored == old(stored) && writes == old(writes)
      ensures res.Ok? ==> writes == old(writes) + 1
      ensures res.Ok? ==>
                var rules := Listing(old(stored)).value;
                && stored == Script(Encoded(rules + [res.value]))
                && exists n: nat :: n <= |rules| + 1 && LowestUnused(rules, n) && res.value == Numbered(rules, rule, n)
    {
      var listed := List(readable);
      if listed.Err? {
        return Err(listed.error);
      }
      var rules := listed.value;
      var id := FreshId(rules);
      ghost var n: nat :| n <= |rules| + 1 && LowestUnused(rules, n) && id == NumberedId(n);
      var added := rule.(id := id);
      if added.sequence == 0 {
        var max := FindMaxSequence(rules);
        added := added.(sequence := Wrap(max + 1));
      }
      assert added == Numbered(rules, rule, n);
      var ok := Write(rules + [added], writable);
      return if ok then Ok(added) else Err(WriteFailed);
    }

    method Update(id: string, rule: Rule, readable: bool, writable: bool) returns (res: Result<Rule, Failure>)
      modifies this
      ensures res.Ok? <==> readable && Listing(old(stored)).Ok? && ById(Listing(old(stored)).value, id).Some? && writable
      ensures res.Err? ==> stored == old(stored) && writes == old(writes)
      ensures res.Ok? ==> writes == old(writes) + 1
      ensures readable && Listing(old(stored)).Ok? && ById(Listing(old(stored)).value, id).None? ==> res == Err(NotFound)
      ensures res.Ok? ==> res.value == rule.(id := id) && stored == Script(Encoded(Replaced(Listing(old(stored)).value, id, rule)))
    {
      var listed := List(readable);
      if listed.Err? {
        return Err(listed.error);
      }
      var rules := listed.value;
      for i := 0 to |rules|
        invariant stored == old(stored) && writes == old(writes)
        invariant forall j :: 0 <= j < i ==> rules[j].id != id
      {
        if rules[i].id == id {
          FoundAt(rules, i, id, rule);
          var ok := Write(rules[i := rule.(id := id)], writable);
          return if ok then Ok(rule.(id := id)) else Err(WriteFailed);
        }
      }
      NotThere(rules, id);
      return Err(NotFound);
    }

    method Delete(id: string, readable: bool, writable: bool) returns (res: Result<(), Failure>)
      modifies this
      ensures res.Ok? <==> readable && Listing(old(stored)).Ok? && ById(Listing(old(stored)).value, id).Some? && writable
      ensures res.Err? ==> stored == old(stored) && writes == old(writes)
      ensures res.Ok? ==> writes == old(writes) + 1
      ensures readable && Listing(old(stored)).Ok? && ById(Listing(old(stored)).value, id).None? ==> res == Err(NotFound)
      ensures res.Ok? ==> stored == Script(Encoded(Without(Listing(old(stored)).value, id)))
    {
      var listed := List(readable);
      if listed.Err? {
        return Err(listed.error);
      }
      var rules := listed.value;
      var kept := [];
      for i := 0 to |rules|
        invariant stored == old(stored) && writes == old(writes)
        invariant kept == Without(rules[..i], id)
      {
        assert rules[..i + 1][..i] == rules[..i];
        if rules[i].id != id {
          kept := kept + [rules[i]];
        }
      }
      assert rules[..|rules|] == rules;
      NoneDropped(rules, id);
      if |kept| == |rules| {
        return Err(NotFound);
      }
      var ok := Write(kept, writable);
      return if ok then Ok(()) else Err(WriteFailed);
    }
  }

  lemma {:induction false} ByIdFinds(rules: seq<Rule>, id: string)
    ensures ById(rules, id).Some? <==> id in Ids(rules)
    ensures ById(rules, id).Some? ==> ById(rules, id).value in rules && ById(rules, id).value.id == id
  {
    if rules != [] {
      ByIdFinds(rules[1..], id);
      assert rules == [rules[0]] + rules[1..];
    }
  }

  lemma {:induction false} ShorterWithout(rules: seq<Rule>, id: string)
    ensures |Without(rules, id)| <= |rules|
    ensures |Without(rules, id)| == |rules| <==> forall r :: r in rules ==> r.id != id
  {
    if rules != [] {
      ShorterWithout(rules[..|rules| - 1], id);
      assert rules == rules[..|rules| - 1] + [rules[|rules| - 1]];
    }
  }

  lemma NoneDropped(rules: seq<Rule>, id: string)
    ensures |Without(rules, id)| == |rules| <==> ById(rules, id).None?
  {
    ShorterWithout(rules, id);
    ByIdFinds(rules, id);
  }

  // ---- The rules as a finite map ----

  ghost predicate UniqueIds(rules: seq<Rule>) { forall i, j :: 0 <= i < j < |rules| ==> rules[i].id != rules[j].id }

  function View(rules: seq<Rule>): map<string, Rule> {
    map id | id in Ids(rules) && ById(rules, id).Some? :: ById(rules, id).value
  }

  lemma {:induction false} ByIdUnique(rules: seq<Rule>, r: Rule)
    requires UniqueIds(rules) && r in rules
    ensures ById(rules, r.id) == Some(r)
  {
    if rules[0] != r {
      assert rules == [rules[0]] + rules[1..];
      var i :| 0 <= i < |rules| && rules[i] == r;
      ByIdUnique(rules[1..], r);
    }
  }

  lemma ViewHolds(rules: seq<Rule>, id: string)
    requires UniqueIds(rules)
    ensures id in View(rules) <==> exists r :: r in rules && r.id == id
    ensures id in View(rules) ==> View(rules)[id] in rules && View(rules)[id].id == id
  {
    ByIdFinds(rules, id);
  }

  /** Rules with the same elements, ids unique, are the same map. */
  lemma SameView(a: seq<Rule>, b: seq<Rule>)
    requires UniqueIds(a) && UniqueIds(b) && forall r :: r in a <==> r in b
    ensures View(a) == View(b)
  {
    forall id ensures id in View(a) <==> id in View(b) {
      ViewHolds(a, id);
      ViewHolds(b, id);
    }
    forall id | id in View(a) ensures View(a)[id] == View(b)[id] {
      ViewHolds(a, id);
      ByIdUnique(b, View(a)[id]);
    }
  }

  lemma {:induction false} UniqueIdsPermuted(a: seq<Rule>, b: seq<Rule>)
    requires UniqueIds(a) && multiset(a) == multiset(b)
    ensures UniqueIds(b)
  {
    forall i, j | 0 <= i < j < |b| ensures b[i].id != b[j].id {
      assert b[i] in multiset(b) && b[j] in multiset(b);
      assert b[i] in multiset(a) && b[j] in multiset(a);
      if b[i].id == b[j].id {
        var x :| 0 <= x < |a| && a[x] == b[i];
        var y :| 0 <= y < |a| && a[y] == b[j];
        assert x == y;
        TwiceCounted(b, i, j);
        OnceCounted(a, x);
        assert false;
      }
    }
  }

  lemma TwiceCounted(b: seq<Rule>, i: nat, j: nat)
    requires i < j < |b| && b[i] == b[j]
    ensures multiset(b)[b[i]] >= 2
  {
    assert b == b[..i] + [b[i]] + b[i + 1..j] + [b[j]] + b[j + 1..];
  }

  lemma OnceCounted(a: seq<Rule>, x: nat)
    requires UniqueIds(a) && x < |a|
    ensures multiset(a)[a[x]] == 1
  {
    assert a == a[..x] + [a[x]] + a[x + 1..];
    assert a[x] !in a[..x] && a[x] !in a[x + 1..];
  }

  /** After a write the list is sorted, its ids stay unique, and the map is that of the rules written. */
  lemma WrittenIsListed(rules: seq<Rule>)
    requires UniqueIds(rules)
    ensures Listing(Script(Encoded(rules))) == Ok(StableSort(rules))
    ensures Sorted(StableSort(rules)) && UniqueIds(StableSort(rules)) && View(StableSort(rules)) == View(rules)
  {
    DecodeInvertsEncode(rules);
    StableSortSorts(rules);
    UniqueIdsPermuted(rules, StableSort(rules));
    forall r ensures r in StableSort(rules) <==> r in rules {
      assert r in StableSort(rules) <==> r in multiset(StableSort(rules));
      assert r in rules <==> r in multiset(rules);
    }
    SameView(StableSort(rules), rules);
  }

  /** Create adds one id to the map, the lowest free one. */
  lemma CreateRefines(rules: seq<Rule>, rule: Rule, n: nat)
    requires UniqueIds(rules) && LowestUnused(rules, n)
    ensures var added := Numbered(rules, rule, n);
            && UniqueIds(rules + [added]) && added.id !in View(rules)
            && View(rules + [added]) == View(rules)[added.id := added]
  {
    var added := Numbered(rules, rule, n);
    var all := rules + [added];
    forall i | 0 <= i < |rules| ensures rules[i].id != added.id {
      assert rules[i] in rules;
    }
    forall id
      ensures id in View(all) <==> id in View(rules) || id == added.id
      ensures id in View(all) ==> View(all)[id] == View(rules)[added.id := added][id]
    {
      ViewHolds(all, id);
      ViewHolds(rules, id);
      if id == added.id {
        ByIdUnique(all, added);
      } else if id in View(rules) {
        ByIdUnique(all, View(rules)[id]);
      }
    }
  }

  lemma {:induction false} ReplacedAt(rules: seq<Rule>, id: string, rule: Rule)
    requires UniqueIds(rules)
    ensures |Replaced(rules, id, rule)| == |rules|
    ensures forall i :: 0 <= i < |rules| ==> Replaced(rules, id, rule)[i] == if rules[i].id == id then rule.(id := id) else rules[i]
  {
    if rules != [] {
      ReplacedAt(rules[1..], id, rule);
    }
  }

  lemma ReplacedUnique(rules: seq<Rule>, id: string, rule: Rule)
    requires UniqueIds(rules)
    ensures UniqueIds(Replaced(rules, id, rule))
  {
    var after := Replaced(rules, id, rule);
    ReplacedAt(rules, id, rule);
    forall i, j | 0 <= i < j < |after| ensures after[i].id != after[j].id {
      assert after[i].id == rules[i].id && after[j].id == rules[j].id;
    }
  }

  /** Update changes the map at one id, which it had. */
  lemma UpdateRefines(rules: seq<Rule>, id: string, rule: Rule)
    requires UniqueIds(rules) && ById(rules, id).Some?
    ensures UniqueIds(Replaced(rules, id, rule))
    ensures View(Replaced(rules, id, rule)) == View(rules)[id := rule.(id := id)]
  {
    var after := Replaced(rules, id, rule);
    ReplacedAt(rules, id, rule);
    ReplacedUnique(rules, id, rule);
    var m, m' := View(after), View(rules)[id := rule.(id := id)];
    forall x ensures (x in m <==> x in m') && (x in m ==> m[x] == m'[x]) {
      UpdatedAt(rules, after, id, rule, x);
    }
    assert m == m';
  }

  lemma UpdatedAt(rules: seq<Rule>, after: seq<Rule>, id: string, rule: Rule, x: string)
    requires UniqueIds(rules) && UniqueIds(after) && ById(rules, id).Some? && |after| == |rules|
    requires forall i :: 0 <= i < |rules| ==> after[i] == if rules[i].id == id then rule.(id := id) else rules[i]
    ensures x in View(after) <==> x in View(rules)[id := rule.(id := id)]
    ensures x in View(after) ==> View(after)[x] == View(rules)[id := rule.(id := id)][x]
  {
    if i :| 0 <= i < |rules| && rules[i].id == x {
      ViewAt(rules, i);
      ViewAt(after, i);
    } else {
      NotInView(rules, x);
      NotInView(after, x);
      ByIdFinds(rules, id);
    }
  }

  lemma ViewAt(rules: seq<Rule>, i: nat)
    requires UniqueIds(rules) && i < |rules|
    ensures rules[i].id in View(rules) && View(rules)[rules[i].id] == rules[i]
  {
    ByIdUnique(rules, rules[i]);
  }

  lemma NotInView(rules: seq<Rule>, x: string)
    requires forall i :: 0 <= i < |rules| ==> rules[i].id != x
    ensures x !in View(rules) && forall r :: r in rules ==> r.id != x
  {
  }

  /** Delete takes one id out of the map. */
  lemma DeleteRefines(rules: seq<Rule>, id: string)
    requires UniqueIds(rules)
    ensures UniqueIds(Without(rules, id)) && View(Without(rules, id)) == View(rules) - {id}
  {
    var after := Without(rules, id);
    FilterElements(rules, (r: Rule) => r.id != id);
    UniqueIdsFiltered(rules, id);
    forall x
      ensures x in View(after) <==> x in View(rules) - {id}
      ensures x in View(after) ==> View(after)[x] == View(rules)[x]
    {
      ViewHolds(after, x);
      ViewHolds(rules, x);
      if x in View(after) {
        ByIdUnique(rules, View(after)[x]);
      }
    }
  }

  lemma {:induction false} UniqueIdsFiltered(rules: seq<Rule>, id: string)
    requires UniqueIds(rules)
    ensures UniqueIds(Without(rules, id))
  {
    if rules != [] {
      var init := rules[..|rules| - 1];
      UniqueIdsFiltered(init, id);
      FilterElements(init, (r: Rule) => r.id != id);
      forall r | r in Without(init, id) ensures r.id != rules[|rules| - 1].id {
        var i :| 0 <= i < |init| && init[i] == r;
      }
    }
  }

  // ---- Any run ----

  datatype Op = CreateOp(rule: Rule) | UpdateOp(id: string, rule: Rule) | DeleteOp(id: string)

  /** What one operation does to the store: written says whether it succeeded; otherwise it left the
      store alone. */
  ghost predicate Steps(op: Op, s: Stored, s': Stored, written: bool) {
    if !written then s' == s
    else
      && Listing(s).Ok?
      && var rules := Listing(s).value;
         match op
         case CreateOp(rule) => exists n :: LowestUnused(rules, n) && s' == Script(Encoded(rules + [Numbered(rules, rule, n)]))
         case UpdateOp(id, rule) => ById(rules, id).Some? && s' == Script(Encoded(Replaced(rules, id, rule)))
         case DeleteOp(id) => ById(rules, id).Some? && s' == Script(Encoded(Without(rules, id)))
  }

  /** The backend's answers to one operation. */
  datatype Answers = Answers(readable: bool, writable: bool)

  /** Any operation of the client is such a step. */
  method Perform(client: Client, op: Op, answers: Answers) returns (written: bool)
    modifies client
    ensures Steps(op, old(client.stored), client.stored, written)
    ensures client.writes == old(client.writes) + if written then 1 else 0
  {
    match op {
      case CreateOp(rule) =>
        var r := client.Create(rule, answers.readable, answers.writable);
        written := r.Ok?;
      case UpdateOp(id, rule) =>
        var r := client.Update(id, rule, answers.readable, answers.writable);
        written := r.Ok?;
      case DeleteOp(id) =>
        var r := client.Delete(id, answers.readable, answers.writable);
        written := r.Ok?;
    }
  }

  /** And any list of them, with any answers, is a run. */
  method PerformAll(client: Client, ops: seq<Op>, answers: seq<Answers>) returns (ghost states: seq<Stored>, written: seq<bool>)
    requires |answers| == |ops|
    modifies client
    ensures Runs(ops, states, written) && states[0] == old(client.stored) && states[|ops|] == client.stored
  {
    states, written := [client.stored], [];
    for i := 0 to |ops|
      invariant |states| == i + 1 && |written| == i
      invariant states[0] == old(client.stored) && states[i] == client.stored
      invariant forall j :: 0 <= j < i ==> Steps(ops[j], states[j], states[j + 1], written[j])
    {
      var w := Perform(client, ops[i], answers[i]);
      states, written := states + [client.stored], written + [w];
    }
  }

  ghost predicate IsHighest(m: map<string, Rule>, h: int) {
    && h >= 0 && (forall id :: id in m ==> m[id].sequence <= h)
    && (h > 0 ==> exists id :: id in m && m[id].sequence == h)
  }

  ghost predicate LowestFree(m: map<string, Rule>, n: nat) {
    n >= 1 && NumberedId(n) !in m && forall k :: 1 <= k < n ==> NumberedId(k) in m
  }

  /** The rule a create adds to a map: under the lowest free id, with the Sequence the caller gave, or
      one past the highest when the caller gave none. */
  ghost predicate Adds(m: map<string, Rule>, rule: Rule, added: Rule) {
    && (exists n :: LowestFree(m, n) && added.id == NumberedId(n))
    && added == rule.(id := added.id, sequence := added.sequence)
    && (rule.sequence != 0 ==> added.sequence == rule.sequence)
    && (rule.sequence == 0 ==> exists h :: IsHighest(m, h) && added.sequence == Wrap(h + 1))
  }

  /** The same operation on a finite map, when it succeeds. */
  ghost predicate MapSteps(op: Op, m: map<string, Rule>, m': map<string, Rule>) {
    match op
    case CreateOp(rule) => exists added :: Adds(m, rule, added) && m' == m[added.id := added]
    case UpdateOp(id, rule) => id in m && m' == m[id := rule.(id := id)]
    case DeleteOp(id) => id in m && m' == m - {id}
  }

  ghost predicate Good(s: Stored) { Listing(s).Ok? && UniqueIds(Listing(s).value) }

  lemma HighestInView(rules: seq<Rule>)
    requires UniqueIds(rules)
    ensures IsHighest(View(rules), MaxSequence(rules))
  {
    MaxSequenceIsMaximum(rules);
    forall id | id in View(rules) ensures View(rules)[id].sequence <= MaxSequence(rules) {
      ViewHolds(rules, id);
    }
    if MaxSequence(rules) > 0 {
      var r :| r in rules && r.sequence == MaxSequence(rules);
      ByIdUnique(rules, r);
      ViewHolds(rules, r.id);
    }
  }

  lemma LowestInView(rules: seq<Rule>, n: nat)
    requires UniqueIds(rules) && LowestUnused(rules, n)
    ensures LowestFree(View(rules), n)
  {
    forall k | 1 <= k <= n ensures NumberedId(k) in View(rules) <==> NumberedId(k) in Ids(rules) {
      ByIdFinds(rules, NumberedId(k));
    }
  }

  lemma CreateAdds(rules: seq<Rule>, rule: Rule, n: nat)
    requires UniqueIds(rules) && LowestUnused(rules, n)
    ensures Adds(View(rules), rule, Numbered(rules, rule, n))
  {
    LowestInView(rules, n);
    HighestInView(rules);
  }

  lemma CreateWritten(rules: seq<Rule>, rule: Rule, n: nat)
    requires UniqueIds(rules) && LowestUnused(rules, n)
    ensures var added := Numbered(rules, rule, n);
            var list := StableSort(rules + [added]);
            && Listing(Script(Encoded(rules + [added]))) == Ok(list)
            && UniqueIds(list) && Sorted(list) && View(list) == View(rules)[added.id := added]
  {
    CreateRefines(rules, rule, n);
    WrittenIsListed(rules + [Numbered(rules, rule, n)]);
  }

  lemma CreateStep(s: Stored, s': Stored, rule: Rule)
    requires Good(s) && Steps(CreateOp(rule), s, s', true)
    ensures Good(s') && Sorted(Listing(s').value) && MapSteps(CreateOp(rule), View(Listing(s).value), View(Listing(s').value))
  {
    var rules := Listing(s).value;
    var n :| LowestUnused(rules, n) && s' == Script(Encoded(rules + [Numbered(rules, rule, n)]));
    var added := Numbered(rules, rule, n);
    CreateAdds(rules, rule, n);
    CreateWritten(rules, rule, n);
    assert Adds(View(rules), rule, added) && View(Listing(s').value) == View(rules)[added.id := added];
  }

  /** Every operation keeps ids unique. One that succeeds does to the map what it does to the script
      and leaves the list sorted; one that fails changes nothing. */
  lemma StepRefinesMap(op: Op, s: Stored, s': Stored, written: bool)
    requires Good(s) && Steps(op, s, s', written)
    ensures Good(s')
    ensures written ==> MapSteps(op, View(Listing(s).value), View(Listing(s').value)) && Sorted(Listing(s').value)
    ensures !written ==> View(Listing(s').value) == View(Listing(s).value)
  {
    if written {
      var rules := Listing(s).value;
      match op
      case CreateOp(rule) => CreateStep(s, s', rule);
      case UpdateOp(id, rule) =>
        UpdateRefines(rules, id, rule);
        WrittenIsListed(Replaced(rules, id, rule));
        ByIdFinds(rules, id);
      case DeleteOp(id) =>
        DeleteRefines(rules, id);
        WrittenIsListed(Without(rules, id));
        ByIdFinds(rules, id);
    }
  }

  ghost predicate Runs(ops: seq<Op>, states: seq<Stored>, written: seq<bool>) {
    && |states| == |ops| + 1 && |written| == |ops|
    && forall i :: 0 <= i < |ops| ==> Steps(ops[i], states[i], states[i + 1], written[i])
  }

  /** From the empty store, or from a script without metadata, every run keeps ids unique and is a
      run of the map: each operation that succeeds is that operation on the map, each other nothing. */
  lemma {:induction false} RunRefinesMap(ops: seq<Op>, states: seq<Stored>, written: seq<bool>, k: nat)
    requires Runs(ops, states, written) && k <= |ops|
    requires states[0] == NoScript || (states[0].Script? && MetaRules(states[0].cmds) == Ok([]))
    ensures Good(states[k])
    ensures k > 0 ==>
              && Good(states[k - 1])
              && var m, m' := View(Listing(states[k - 1]).value), View(Listing(states[k]).value);
                 if written[k - 1] then MapSteps(ops[k - 1], m, m') && Sorted(Listing(states[k]).value) else m' == m
  {
    if k == 0 {
      if states[0].Script? {
        ImportedUnique(states[0].cmds);
      }
    } else {
      RunRefinesMap(ops, states, written, k - 1);
      StepRefinesMap(ops[k - 1], states[k - 1], states[k], written[k - 1]);
    }
  }

  lemma {:induction false} ImportedAt(script: seq<Command>)
    ensures forall i :: 0 <= i < |ImportedRules(script)| ==> ImportedRules(script)[i].id == NumberedId(i + 1)
  {
    if script != [] {
      ImportedAt(script[..|script| - 1]);
    }
  }

  lemma ImportedUnique(script: seq<Command>)
    ensures UniqueIds(ImportedRules(script))
  {
    var rules := ImportedRules(script);
    ImportedAt(script);
    forall i, j | 0 <= i < j < |rules| ensures rules[i].id != rules[j].id {
      NumberedIdInjective(i + 1, j + 1);
    }
  }

  // ---- A rule created without a Sequence ----

  /** A rule created with Sequence 0 is listed, and so evaluated, last exactly while the highest
      Sequence can still be exceeded. */
  lemma NewRuleIsLastIff(rules: seq<Rule>, rule: Rule, n: nat)
    requires rule.sequence == 0 && LowestUnused(rules, n)
    requires forall r :: r in rules ==> -TWO63 <= r.sequence < TWO63
    ensures var added := Numbered(rules, rule, n);
            var listed := StableSort(rules + [added]);
            listed != [] && (listed[|listed| - 1] == added <==> MaxSequence(rules) < TWO63 - 1)
  {
    MaxSequenceIsMaximum(rules);
    WrapNext(MaxSequence(rules));
    SortedWith(rules, Numbered(rules, rule, n));
    LastIff(rules, Numbered(rules, rule, n), MaxSequence(rules));
  }

  lemma LastIff(rules: seq<Rule>, added: Rule, max: int)
    requires 0 <= max < TWO63 && forall r :: r in rules ==> r.sequence <= max
    requires max > 0 ==> exists r :: r in rules && r.sequence == max
    requires added.sequence == if max < TWO63 - 1 then max + 1 else -TWO63
    ensures var listed := Insert(added, StableSort(rules));
            listed != [] && (listed[|listed| - 1] == added <==> max < TWO63 - 1)
  {
    if max < TWO63 - 1 {
      LastWhenRoom(rules, added);
    } else {
      FirstWhenFull(rules, added);
    }
  }

  lemma LastWhenRoom(rules: seq<Rule>, added: Rule)
    requires forall r :: r in rules ==> r.sequence <= added.sequence
    ensures Insert(added, StableSort(rules)) == StableSort(rules) + [added]
  {
    SortKeepsMembers(rules);
    InsertedLast(added, StableSort(rules));
  }

  lemma FirstWhenFull(rules: seq<Rule>, added: Rule)
    requires exists top :: top in rules && top.sequence > added.sequence
    ensures var listed := Insert(added, StableSort(rules)); listed != [] && listed[|listed| - 1] != added
  {
    SortKeepsMembers(rules);
    var top :| top in rules && top.sequence > added.sequence;
    InsertedBelow(added, StableSort(rules), top);
  }

  lemma WrapNext(n: int)
    requires 0 <= n < TWO63
    ensures Wrap(n + 1) == if n < TWO63 - 1 then n + 1 else -TWO63
  {
  }

  lemma SortedWith(rules: seq<Rule>, added: Rule)
    ensures StableSort(rules + [added]) == Insert(added, StableSort(rules))
  {
    assert (rules + [added])[..|rules|] == rules;
  }

  lemma SortKeepsMembers(rules: seq<Rule>)
    ensures Sorted(StableSort(rules)) && forall r :: r in StableSort(rules) <==> r in rules
  {
    StableSortSorts(rules);
    forall r ensures r in StableSort(rules) <==> r in rules {
      assert r in StableSort(rules) <==> r in multiset(StableSort(rules));
      assert r in rules <==> r in multiset(rules);
    }
  }

  lemma InsertedLast(added: Rule, sorted: seq<Rule>)
    requires forall r :: r in sorted ==> r.sequence <= added.sequence
    ensures Insert(added, sorted) == sorted + [added]
  {
    assert sorted != [] ==> sorted[|sorted| - 1] in sorted;
  }

  lemma InsertedBelow(added: Rule, sorted: seq<Rule>, top: Rule)
    requires Sorted(sorted) && top in sorted && top.sequence > added.sequence
    ensures var listed := Insert(added, sorted); listed != [] && listed[|listed| - 1] != added
  {
    var i :| 0 <= i < |sorted| && sorted[i] == top;
    assert sorted[|sorted| - 1].sequence >= top.sequence;
  }

  /** With a rule at 2^63-1 in the script, the rule created next is listed first. */
  lemma SequenceWraps(top: Rule, rule: Rule, n: nat)
    requires top.sequence == TWO63 - 1 && rule.sequence == 0
    ensures var added := Numbered([top], rule, n);
            added.sequence == -TWO63 && StableSort([top] + [added]) == [added, top]
  {
    var added := Numbered([top], rule, n);
    assert [top][..0] == [];
    assert MaxSequence([top]) == TWO63 - 1;
    WrapNext(TWO63 - 1);
    SortedWith([top], added);
    assert StableSort([top]) == [top];
  }
}
