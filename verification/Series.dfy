/** internal/calendar/caldav (recurrence.go, write.go, caldav.go): one calendar object holding a
    series, expanded over a window, looked up at one occurrence, and overridden in place. */
module Series {
  import opened Wrappers
  import opened Sequences
  import Invitations

  /** The neutral event an adapter maps a VEVENT to; fields stands for everything the
      operations here carry along. */
  datatype Body = Body(fields: string, recurring: bool, start: Option<int>, duration: Option<nat>,
                       recurrenceId: Option<int>, isOverride: bool)

  datatype RecurrenceId = Absent | Unparsable | At(instant: int)

  /** The recurrence set of a master: none, one that cannot be read, or a named rule. */
  datatype Rule = NoRule | BadRule | Rule(name: nat)

  /** A child of the VCALENDAR. body is what the bridge reads from the VEVENT. */
  datatype Component =
    | VEvent(recurrence: RecurrenceId, uid: string, body: Body, dtstart: Option<int>, dtend: Option<int>, rule: Rule)
    | OtherComponent(name: string)

  /** The id of the event and of its series. */
  datatype Id = MasterId(path: string) | InstanceId(path: string, instant: int)

  datatype Instance = Instance(id: Id, series: Option<Id>, etag: string, body: Body)

  datatype Window = Window(start: int, end: int)

  datatype Error = NoEvent | NoMaster | BadRecurrence | NoRecurrenceId | GetFailed | NoData | PutFailed

  /** How the server answers a read-modify-write of the object. */
  datatype Answers = Answers(get: bool, hasData: bool, put: bool)

  /** What is outside the model: which instants a rule generates, and what the bridge reads back
      from an event it wrote. */
  datatype Library = Library(occurs: (nat, int) -> bool, bridge: Body -> Body)

  function RecurrenceIdOf(c: Component): Option<int> {
    if c.VEvent? && c.recurrence.At? then Some(c.recurrence.instant) else None
  }

  function SetRecurrenceId(b: Body, at: int): Body { b.(recurrenceId := Some(at)) }

  function MapEvent(c: Component): Body
    requires c.VEvent?
  {
    if c.recurrence.At? then SetRecurrenceId(c.body, c.recurrence.instant).(isOverride := true) else c.body
  }

  /** SetUTCTimes: without an end the duration stays as it was. */
  function SetUTCTimes(b: Body, start: int, end: Option<int>): Body {
    b.(start := Some(start), duration := if end.Some? then Invitations.DurationBetween(start, end.value) else b.duration)
  }

  predicate InWindow(t: int, r: Window) { r.start <= t <= r.end }

  // ---- What an object holds ----

  function Events(cal: seq<Component>): seq<Component> { Filter(cal, (c: Component) => c.VEvent?) }

  predicate IsMaster(c: Component) { c.VEvent? && RecurrenceIdOf(c).None? }

  predicate Overrides(c: Component, at: int) { RecurrenceIdOf(c) == Some(at) }

  function First(cal: seq<Component>, pick: Component -> bool): (r: Option<Component>)
    ensures r.None? <==> forall c :: c in cal ==> !pick(c)
    ensures r.Some? ==> r.value in cal && pick(r.value)
  {
    if cal == [] then None else if pick(cal[0]) then Some(cal[0]) else First(cal[1..], pick)
  }

  function Last(cal: seq<Component>, pick: Component -> bool): (r: Option<Component>)
    ensures r.None? <==> forall c :: c in cal ==> !pick(c)
    ensures r.Some? ==> r.value in cal && pick(r.value)
  {
    if cal == [] then None
    else if pick(cal[|cal| - 1]) then Some(cal[|cal| - 1])
    else
      assert cal == cal[..|cal| - 1] + [cal[|cal| - 1]];
      Last(cal[..|cal| - 1], pick)
  }

  function Master(cal: seq<Component>): Option<Component> { First(cal, IsMaster) }

  function OverrideAt(at: int): Component -> bool { (c: Component) => Overrides(c, at) }

  /** The override the expansion uses (the last) and the one a lookup uses (the first). */
  function LastOverride(cal: seq<Component>, at: int): Option<Component> { Last(cal, OverrideAt(at)) }

  function FirstOverride(cal: seq<Component>, at: int): Option<Component> { First(cal, OverrideAt(at)) }

  // ---- Instances ----

  function Overriding(path: string, c: Component, at: int): Instance
    requires c.VEvent?
  {
    Instance(InstanceId(path, at), Some(MasterId(path)), "", SetRecurrenceId(MapEvent(c).(isOverride := true), at))
  }

  function Span(master: Component): Option<int>
    requires master.VEvent?
  {
    if master.dtstart.Some? && master.dtend.Some? then Some(master.dtend.value - master.dtstart.value) else None
  }

  /** An occurrence without override as the expansion makes it: the end is set for a positive span. */
  function Expanded(path: string, master: Component, at: int): Instance
    requires master.VEvent?
  {
    var span := Span(master);
    var timed := SetUTCTimes(MapEvent(master).(recurring := false), at,
                             if span.Some? && span.value > 0 then Some(at + span.value) else None);
    Instance(InstanceId(path, at), Some(MasterId(path)), "", SetRecurrenceId(timed, at))
  }

  /** The same occurrence as a lookup makes it: the end is set whenever both ends are known. */
  function LookedUp(path: string, master: Component, at: int): Instance
    requires master.VEvent?
  {
    var span := Span(master);
    var timed := SetUTCTimes(MapEvent(master).(recurring := false), at, if span.Some? then Some(at + span.value) else None);
    Instance(InstanceId(path, at), Some(MasterId(path)), "", SetRecurrenceId(timed, at))
  }

  function Listed(path: string, cal: seq<Component>, at: int): Instance
    requires Master(cal).Some?
  {
    var o := LastOverride(cal, at);
    if o.Some? then Overriding(path, o.value, at) else Expanded(path, Master(cal).value, at)
  }

  /** The recurrence ids the expansion lists. */
  predicate IsListed(lib: Library, cal: seq<Component>, r: Window, at: int)
    requires Master(cal).Some? && Master(cal).value.rule.Rule?
  {
    InWindow(at, r) && (lib.occurs(Master(cal).value.rule.name, at) || LastOverride(cal, at).Some?)
  }

  ghost predicate AscendingIds(out: seq<Instance>) {
    && (forall i :: 0 <= i < |out| ==> out[i].body.recurrenceId.Some?)
    && forall i, j :: 0 <= i < j < |out| ==> out[i].body.recurrenceId.value < out[j].body.recurrenceId.value
  }

  ghost predicate Lists(out: seq<Instance>, at: int) { exists i :: 0 <= i < |out| && out[i].body.recurrenceId == Some(at) }

  /** Strictly ascending, one instance for each listed id and no other, each the listed one. */
  ghost predicate IsExpansion(lib: Library, path: string, cal: seq<Component>, r: Window, out: seq<Instance>)
    requires Master(cal).Some? && Master(cal).value.rule.Rule?
  {
    && AscendingIds(out)
    && (forall at :: Lists(out, at) <==> IsListed(lib, cal, r, at))
    && (forall i :: 0 <= i < |out| ==> out[i] == Listed(path, cal, out[i].body.recurrenceId.value))
  }

  // ---- The expansion ----

  /** rrule.Set.Between, inclusive: the generated instants from the start of the window on. */
  function Between(occurs: int -> bool, from: int, until: int): (out: seq<int>)
    ensures forall t :: t in out <==> from <= t <= until && occurs(t)
    ensures forall i, j :: 0 <= i < j < |out| ==> out[i] < out[j]
    decreases if from > until then 0 else until - from + 1
  {
    if from > until then []
    else
      var rest := Between(occurs, from + 1, until);
      assert forall j :: 0 <= j < |rest| ==> rest[j] in rest;
      (if occurs(from) then [from] else []) + rest
  }

  /** Under each recurrence id, the last override that names it. */
  ghost predicate HoldsLast(cal: seq<Component>, overrides: map<int, Component>) {
    forall at :: (at in overrides <==> LastOverride(cal, at).Some?) && (at in overrides ==> Some(overrides[at]) == LastOverride(cal, at))
  }

  lemma HoldsOneMore(cal: seq<Component>, overrides: map<int, Component>, c: Component)
    requires HoldsLast(cal, overrides)
    ensures HoldsLast(cal + [c], if c.VEvent? && RecurrenceIdOf(c).Some? then overrides[RecurrenceIdOf(c).value := c] else overrides)
  {
    assert (cal + [c])[..|cal|] == cal;
  }

  /** The overrides map: a later VEVENT replaces an earlier one with the same id. */
  method CollectOverrides(cal: seq<Component>) returns (master: Option<Component>, overrides: map<int, Component>)
    ensures master == Master(cal)
    ensures HoldsLast(cal, overrides)
  {
    master, overrides := None, map[];
    for i := 0 to |cal|
      invariant master == Master(cal[..i])
      invariant HoldsLast(cal[..i], overrides)
    {
      FirstAppend(cal[..i], cal[i], IsMaster);
      HoldsOneMore(cal[..i], overrides, cal[i]);
      assert cal[..i + 1] == cal[..i] + [cal[i]];
      if cal[i].VEvent? {
        var rid := RecurrenceIdOf(cal[i]);
        if rid.Some? {
          overrides := overrides[rid.value := cal[i]];
        } else if master.None? {
          master := Some(cal[i]);
        }
      }
    }
    assert cal[..|cal|] == cal;
  }

  lemma {:induction false} FirstAppend(cal: seq<Component>, c: Component, pick: Component -> bool)
    ensures First(cal + [c], pick) == if First(cal, pick).Some? then First(cal, pick) else if pick(c) then Some(c) else None
  {
    if cal == [] {
      assert [c][1..] == [];
    } else {
      assert (cal + [c])[1..] == cal[1..] + [c];
      FirstAppend(cal[1..], c, pick);
    }
  }

  /** sort.Slice on distinct keys: insertion in ascending order. */
  function Insert(e: Instance, out: seq<Instance>): seq<Instance>
    requires e.body.recurrenceId.Some? && AscendingIds(out)
  {
    if out == [] || e.body.recurrenceId.value < out[0].body.recurrenceId.value then [e] + out
    else [out[0]] + Insert(e, out[1..])
  }

  lemma {:induction false} InsertSorts(e: Instance, out: seq<Instance>)
    requires e.body.recurrenceId.Some? && AscendingIds(out) && !Lists(out, e.body.recurrenceId.value)
    ensures AscendingIds(Insert(e, out))
    ensures forall x :: x in Insert(e, out) <==> x in out || x == e
  {
    if out != [] && e.body.recurrenceId.value > out[0].body.recurrenceId.value {
      InsertSorts(e, out[1..]);
      StaysFirst(e, out, Insert(e, out[1..]));
      assert out == [out[0]] + out[1..];
    } else {
      assert out != [] ==> out[0].body.recurrenceId != e.body.recurrenceId;
    }
  }

  lemma StaysFirst(e: Instance, out: seq<Instance>, rest: seq<Instance>)
    requires out != [] && AscendingIds(out) && AscendingIds(rest)
    requires e.body.recurrenceId.Some? && e.body.recurrenceId.value > out[0].body.recurrenceId.value
    requires forall x :: x in rest <==> x in out[1..] || x == e
    ensures AscendingIds([out[0]] + rest)
  {
    forall j | 0 <= j < |rest| ensures out[0].body.recurrenceId.value < rest[j].body.recurrenceId.value {
      assert rest[j] in rest;
      if rest[j] != e {
        var m :| 0 <= m < |out[1..]| && out[1..][m] == rest[j];
      }
    }
  }

  lemma ListsMembers(out: seq<Instance>, at: int)
    ensures Lists(out, at) <==> exists x :: x in out && x.body.recurrenceId == Some(at)
  {
    if x :| x in out && x.body.recurrenceId == Some(at) {
      var i :| 0 <= i < |out| && out[i] == x;
    }
  }

  /** Partial expansion: the ids listed so far. */
  ghost predicate Covers(path: string, cal: seq<Component>, out: seq<Instance>, ids: set<int>)
    requires Master(cal).Some?
  {
    && AscendingIds(out)
    && (forall at :: Lists(out, at) <==> at in ids)
    && (forall i :: 0 <= i < |out| ==> out[i] == Listed(path, cal, out[i].body.recurrenceId.value))
  }

  lemma InsertCovers(path: string, cal: seq<Component>, out: seq<Instance>, ids: set<int>, at: int)
    requires Master(cal).Some? && Covers(path, cal, out, ids) && at !in ids
    ensures Covers(path, cal, Insert(Listed(path, cal, at), out), ids + {at})
  {
    var e := Listed(path, cal, at);
    var out' := Insert(e, out);
    InsertSorts(e, out);
    forall t ensures Lists(out', t) <==> t in ids + {at} {
      ListsMembers(out, t);
      ListsMembers(out', t);
    }
    forall i | 0 <= i < |out'| ensures out'[i] == Listed(path, cal, out'[i].body.recurrenceId.value) {
      assert out'[i] in out';
      if out'[i] != e {
        var m :| 0 <= m < |out| && out[m] == out'[i];
      }
    }
  }

  method ExpandInstances(lib: Library, path: string, cal: seq<Component>, r: Window) returns (res: Result<seq<Instance>, Error>)
    ensures Events(cal) == [] ==> res == Err(NoEvent)
    ensures Events(cal) != [] && Master(cal).None? ==> res == Err(NoMaster)
    ensures Master(cal).Some? ==>
              match Master(cal).value.rule
              case BadRule => res == Err(BadRecurrence)
              case NoRule =>
                var base := MapEvent(Master(cal).value);
                res == Ok(if base.start.Some? && InWindow(base.start.value, r) then [Instance(MasterId(path), None, "", base)] else [])
              case Rule(_) => res.Ok? && IsExpansion(lib, path, cal, r, res.value)
  {
    var master, overrides := CollectOverrides(cal);
    FilterElements(cal, (c: Component) => c.VEvent?);
    if Events(cal) == [] {
      return Err(NoEvent);
    }
    if master.None? {
      return Err(NoMaster);
    }
    match master.value.rule {
      case BadRule => return Err(BadRecurrence);
      case NoRule =>
        var base := MapEvent(master.value);
        return Ok(if base.start.Some? && InWindow(base.start.value, r) then [Instance(MasterId(path), None, "", base)] else []);
      case Rule(name) =>
        var out := Occurrences(lib, path, cal, r, overrides, name);
        return Ok(out);
    }
  }

  lemma CollectedIsListed(path: string, cal: seq<Component>, overrides: map<int, Component>, at: int)
    requires Master(cal).Some? && HoldsLast(cal, overrides)
    ensures at in overrides ==> overrides[at].VEvent? && Overriding(path, overrides[at], at) == Listed(path, cal, at)
    ensures at !in overrides ==> Expanded(path, Master(cal).value, at) == Listed(path, cal, at)
  {
  }

  method FromRule(path: string, cal: seq<Component>, occurrences: seq<int>, overrides: map<int, Component>)
    returns (out: seq<Instance>, seen: set<int>)
    requires Master(cal).Some? && HoldsLast(cal, overrides)
    requires forall i, j :: 0 <= i < j < |occurrences| ==> occurrences[i] < occurrences[j]
    ensures seen == (set t | t in occurrences) && Covers(path, cal, out, seen)
  {
    var master := Master(cal).value;
    out, seen := [], {};
    for i := 0 to |occurrences|
      invariant seen == set t | t in occurrences[..i]
      invariant Covers(path, cal, out, seen)
    {
      var occ := occurrences[i];
      assert occurrences[..i + 1] == occurrences[..i] + [occ];
      CollectedIsListed(path, cal, overrides, occ);
      InsertCovers(path, cal, out, seen, occ);
      out := Insert(if occ in overrides then Overriding(path, overrides[occ], occ) else Expanded(path, master, occ), out);
      seen := seen + {occ};
    }
    assert occurrences[..|occurrences|] == occurrences;
  }

  /** Some key still to visit: Go's map order is arbitrary. */
  method Visit(todo: set<int>) returns (rid: int)
    requires todo != {}
    ensures rid in todo
  {
    assert (forall t :: t !in todo) ==> todo == {};
    rid :| rid in todo;
  }

  /** Whether an occurrence already surfaced the id. */
  method Emitted(out: seq<Instance>, rid: int) returns (found: bool)
    ensures found <==> Lists(out, rid)
  {
    found := exists i :: 0 <= i < |out| && out[i].body.recurrenceId == Some(rid);
  }

  /** The overrides, in map order, that no occurrence surfaced. */
  method FromOverrides(path: string, cal: seq<Component>, r: Window, overrides: map<int, Component>,
                       produced: seq<Instance>, ghost seen: set<int>)
    returns (out: seq<Instance>, ghost ids: set<int>)
    requires Master(cal).Some? && HoldsLast(cal, overrides) && Covers(path, cal, produced, seen)
    ensures Covers(path, cal, out, ids)
    ensures forall t :: t in ids <==> t in seen || (t in overrides && InWindow(t, r))
  {
    out := produced;
    var todo: set<int> := overrides.Keys;
    ids := seen;
    while todo != {}
      invariant forall t :: t in todo ==> t in overrides
      invariant forall t :: t in ids <==> t in seen || (t in overrides && t !in todo && InWindow(t, r))
      invariant Covers(path, cal, out, ids)
      decreases todo
    {
      var rid := Visit(todo);
      var emitted := Emitted(produced, rid);
      if !emitted && InWindow(rid, r) {
        CollectedIsListed(path, cal, overrides, rid);
        InsertCovers(path, cal, out, ids, rid);
        out := Insert(Overriding(path, overrides[rid], rid), out);
        ids := ids + {rid};
      }
      todo := todo - {rid};
    }
  }

  method Occurrences(lib: Library, path: string, cal: seq<Component>, r: Window, overrides: map<int, Component>, name: nat)
    returns (out: seq<Instance>)
    requires Master(cal).Some? && Master(cal).value.rule == Rule(name) && HoldsLast(cal, overrides)
    ensures IsExpansion(lib, path, cal, r, out)
  {
    var occurrences := Between((t: int) => lib.occurs(name, t), r.start, r.end);
    var produced, seen := FromRule(path, cal, occurrences, overrides);
    ghost var ids;
    out, ids := FromOverrides(path, cal, r, overrides, produced, seen);
  }

  /** The expansion is determined: nothing depends on the order of the overrides map. */
  lemma {:induction false} ExpansionUnique(lib: Library, path: string, cal: seq<Component>, r: Window, out: seq<Instance>, out': seq<Instance>)
    requires Master(cal).Some? && Master(cal).value.rule.Rule?
    requires IsExpansion(lib, path, cal, r, out) && IsExpansion(lib, path, cal, r, out')
    ensures out == out'
  {
    forall x | x in out ensures x in out' {
      SameListed(path, cal, out, out', x);
    }
    forall x | x in out' ensures x in out {
      SameListed(path, cal, out', out, x);
    }
    AscendingSame(out, out');
  }

  lemma SameListed(path: string, cal: seq<Component>, out: seq<Instance>, out': seq<Instance>, x: Instance)
    requires Master(cal).Some? && AscendingIds(out) && AscendingIds(out') && x in out
    requires forall at :: Lists(out, at) ==> Lists(out', at)
    requires forall i :: 0 <= i < |out| ==> out[i] == Listed(path, cal, out[i].body.recurrenceId.value)
    requires forall i :: 0 <= i < |out'| ==> out'[i] == Listed(path, cal, out'[i].body.recurrenceId.value)
    ensures x in out'
  {
    var i :| 0 <= i < |out| && out[i] == x;
    var at := x.body.recurrenceId.value;
    assert Lists(out, at);
    var j :| 0 <= j < |out'| && out'[j].body.recurrenceId == Some(at);
    assert out'[j] == x;
  }

  lemma FirstSame(out: seq<Instance>, out': seq<Instance>)
    requires AscendingIds(out) && AscendingIds(out') && out != [] && out' != []
    requires out[0] in out' && out'[0] in out
    ensures out[0] == out'[0]
  {
    var i :| 0 <= i < |out'| && out'[i] == out[0];
    var j :| 0 <= j < |out| && out[j] == out'[0];
    assert i == 0 || j == 0;
  }

  lemma {:induction false} AscendingSame(out: seq<Instance>, out': seq<Instance>)
    requires AscendingIds(out) && AscendingIds(out')
    requires (forall x :: x in out ==> x in out') && (forall x :: x in out' ==> x in out)
    ensures out == out'
  {
    assert (out != [] ==> out[0] in out') && (out' != [] ==> out'[0] in out);
    if out != [] {
      FirstSame(out, out');
      forall x | x in out[1..] ensures x in out'[1..] {
        TailMember(out, out', x);
      }
      forall x | x in out'[1..] ensures x in out[1..] {
        TailMember(out', out, x);
      }
      AscendingSame(out[1..], out'[1..]);
      assert out == [out[0]] + out[1..] && out' == [out'[0]] + out'[1..];
    }
  }

  lemma TailMember(out: seq<Instance>, out': seq<Instance>, x: Instance)
    requires AscendingIds(out) && out != [] && out' != [] && out[0] == out'[0] && x in out[1..] && x in out'
    ensures x in out'[1..]
  {
    var i :| 0 <= i < |out[1..]| && out[1..][i] == x;
    assert out[i + 1].body.recurrenceId.value > out[0].body.recurrenceId.value;
    var j :| 0 <= j < |out'| && out'[j] == x;
    assert out'[1..][j - 1] == x;
  }

  // ---- Writing an override in place ----

  function SeriesUid(cal: seq<Component>): string {
    if cal == [] then "" else if cal[0].VEvent? && cal[0].uid != "" then cal[0].uid else SeriesUid(cal[1..])
  }

  /** overrideVEVENT: the override as one VEVENT, never a nested series. */
  function OverrideVEvent(lib: Library, uid: string, b: Body, at: int): Component {
    VEvent(At(at), uid, lib.bridge(b.(recurring := false)), b.start,
           if b.start.Some? && b.duration.Some? then Some(b.start.value + b.duration.value) else None, NoRule)
  }

  function Without(cal: seq<Component>, at: int): seq<Component> { Filter(cal, (c: Component) => !Overrides(c, at)) }

  class Object {
    const path: string
    var children: seq<Component>

    constructor (path: string, children: seq<Component>)
      ensures this.path == path && this.children == children
    {
      this.path, this.children := path, children;
    }

    /** The children keep their order, the stale overrides of the occurrence go, the fresh one is
        appended. */
    method WriteInstanceOverride(lib: Library, b: Body, answers: Answers) returns (res: Result<Instance, Error>)
      modifies this
      ensures res.Err? ==> children == old(children)
      ensures b.recurrenceId.None? ==> res == Err(NoRecurrenceId)
      ensures b.recurrenceId.Some? && !answers.get ==> res == Err(GetFailed)
      ensures b.recurrenceId.Some? && answers.get && !answers.hasData ==> res == Err(NoData)
      ensures b.recurrenceId.Some? && answers.get && answers.hasData && !answers.put ==> res == Err(PutFailed)
      ensures b.recurrenceId.Some? && answers == Answers(true, true, true) ==>
                var at := b.recurrenceId.value;
                && children == Without(old(children), at) + [OverrideVEvent(lib, SeriesUid(old(children)), b, at)]
                && res == Ok(Instance(InstanceId(path, at), Some(MasterId(path)), "", b.(isOverride := true)))
    {
      if b.recurrenceId.None? {
        return Err(NoRecurrenceId);
      }
      if !answers.get {
        return Err(GetFailed);
      }
      if !answers.hasData {
        return Err(NoData);
      }
      var at := b.recurrenceId.value;
      var added := OverrideVEvent(lib, SeriesUid(children), b, at);
      var kept := [];
      for i := 0 to |children|
        invariant children == old(children)
        invariant kept == Without(children[..i], at)
      {
        assert children[..i + 1][..i] == children[..i];
        if !Overrides(children[i], at) {
          kept := kept + [children[i]];
        }
      }
      assert children[..|children|] == children;
      if !answers.put {
        return Err(PutFailed);
      }
      children := kept + [added];
      return Ok(Instance(InstanceId(path, at), Some(MasterId(path)), "", b.(isOverride := true)));
    }

    /** GetEvent of an instance id. */
    method InstanceFromObject(etag: string, at: int) returns (r: Option<Instance>)
      ensures r == Resolved(path, children, etag, at)
    {
      var master: Option<Component> := None;
      for i := 0 to |children|
        invariant master == Master(children[..i])
        invariant FirstOverride(children[..i], at).None?
      {
        assert children == children[..i] + children[i..];
        assert children[..i + 1] == children[..i] + [children[i]];
        FirstAppend(children[..i], children[i], IsMaster);
        FirstAppend(children[..i], children[i], OverrideAt(at));
        if children[i].VEvent? {
          var rid := RecurrenceIdOf(children[i]);
          if rid.Some? {
            if rid.value == at {
              FirstPrefix(children, i + 1, OverrideAt(at));
              return Some(Overriding(path, children[i], at).(etag := etag));
            }
          } else if master.None? {
            master := Some(children[i]);
          }
        }
      }
      assert children[..|children|] == children;
      if master.None? {
        return None;
      }
      return Some(LookedUp(path, master.value, at).(etag := etag));
    }
  }

  lemma {:induction false} FirstPrefix(cal: seq<Component>, n: nat, pick: Component -> bool)
    requires n <= |cal| && First(cal[..n], pick).Some?
    ensures First(cal, pick) == First(cal[..n], pick)
  {
    if !pick(cal[0]) {
      assert cal[..n][1..] == cal[1..][..n - 1];
      FirstPrefix(cal[1..], n - 1, pick);
    }
  }

  function Resolved(path: string, cal: seq<Component>, etag: string, at: int): Option<Instance> {
    var o := FirstOverride(cal, at);
    if o.Some? then Some(Overriding(path, o.value, at).(etag := etag))
    else if Master(cal).None? then None
    else Some(LookedUp(path, Master(cal).value, at).(etag := etag))
  }

  lemma {:induction false} FirstOfFiltered(cal: seq<Component>, keep: Component -> bool, pick: Component -> bool)
    requires forall c :: c in cal && pick(c) ==> keep(c)
    ensures First(Filter(cal, keep), pick) == First(cal, pick)
  {
    if cal != [] {
      var init, last := cal[..|cal| - 1], cal[|cal| - 1];
      assert cal == init + [last];
      FirstOfFiltered(init, keep, pick);
      FirstAppend(init, last, pick);
      FirstAppend(Filter(init, keep), last, pick);
    }
  }

  lemma LastAppend(cal: seq<Component>, c: Component, pick: Component -> bool)
    ensures Last(cal + [c], pick) == if pick(c) then Some(c) else Last(cal, pick)
  {
    assert (cal + [c])[..|cal|] == cal;
  }

  lemma {:induction false} LastOfFiltered(cal: seq<Component>, keep: Component -> bool, pick: Component -> bool)
    requires forall c :: c in cal && pick(c) ==> keep(c)
    ensures Last(Filter(cal, keep), pick) == Last(cal, pick)
  {
    if cal != [] {
      var init, last := cal[..|cal| - 1], cal[|cal| - 1];
      assert cal == init + [last];
      LastOfFiltered(init, keep, pick);
      LastAppend(init, last, pick);
      LastAppend(Filter(init, keep), last, pick);
    }
  }

  lemma MasterKept(cal: seq<Component>, at: int, added: Component)
    requires added.VEvent? && Overrides(added, at)
    ensures Master(Without(cal, at) + [added]) == Master(cal)
  {
    FirstOfFiltered(cal, (c: Component) => !Overrides(c, at), IsMaster);
    FirstAppend(Without(cal, at), added, IsMaster);
  }

  lemma OtherOverridesKept(cal: seq<Component>, at: int, added: Component, other: int)
    requires added.VEvent? && Overrides(added, at) && other != at
    ensures LastOverride(Without(cal, at) + [added], other) == LastOverride(cal, other)
    ensures FirstOverride(Without(cal, at) + [added], other) == FirstOverride(cal, other)
  {
    var kept := Without(cal, at);
    LastOfFiltered(cal, (c: Component) => !Overrides(c, at), OverrideAt(other));
    FirstOfFiltered(cal, (c: Component) => !Overrides(c, at), OverrideAt(other));
    FirstAppend(kept, added, OverrideAt(other));
    assert (kept + [added])[..|kept|] == kept;
  }

  lemma WrittenOverride(cal: seq<Component>, at: int, added: Component)
    requires added.VEvent? && Overrides(added, at)
    ensures LastOverride(Without(cal, at) + [added], at) == FirstOverride(Without(cal, at) + [added], at) == Some(added)
  {
    FilterElements(cal, (c: Component) => !Overrides(c, at));
    assert First(Without(cal, at), OverrideAt(at)).None?;
    FirstAppend(Without(cal, at), added, OverrideAt(at));
  }

  /** Writing an override changes the expansion at its one recurrence id, over every window: all
      other instances stay, and in the window this one is listed with the override's body. */
  lemma OverrideChangesOneInstance(lib: Library, path: string, cal: seq<Component>, r: Window, b: Body, at: int,
                                   before: seq<Instance>, after: seq<Instance>)
    requires Master(cal).Some? && Master(cal).value.rule.Rule?
    ensures var cal' := Without(cal, at) + [OverrideVEvent(lib, SeriesUid(cal), b, at)];
            && Master(cal') == Master(cal)
            && (IsExpansion(lib, path, cal, r, before) && IsExpansion(lib, path, cal', r, after) ==>
                  && (forall x :: x in before && x.body.recurrenceId != Some(at) <==> x in after && x.body.recurrenceId != Some(at))
                  && (Lists(after, at) <==> InWindow(at, r))
                  && (forall x :: x in after && x.body.recurrenceId == Some(at) ==>
                        x == Overriding(path, OverrideVEvent(lib, SeriesUid(cal), b, at), at)))
  {
    var added := OverrideVEvent(lib, SeriesUid(cal), b, at);
    var cal' := Without(cal, at) + [added];
    MasterKept(cal, at, added);
    WrittenOverride(cal, at, added);
    if IsExpansion(lib, path, cal, r, before) && IsExpansion(lib, path, cal', r, after) {
      forall other | other != at ensures LastOverride(cal', other) == LastOverride(cal, other) {
        OtherOverridesKept(cal, at, added, other);
      }
      OthersStay(lib, path, cal, cal', r, at, before, after);
      OthersStay(lib, path, cal', cal, r, at, after, before);
      forall x | x in after && x.body.recurrenceId == Some(at) ensures x == Overriding(path, added, at) {
        var i :| 0 <= i < |after| && after[i] == x;
      }
    }
  }

  lemma OthersStay(lib: Library, path: string, cal: seq<Component>, cal': seq<Component>, r: Window, at: int,
                   before: seq<Instance>, after: seq<Instance>)
    requires Master(cal).Some? && Master(cal).value.rule.Rule? && Master(cal') == Master(cal)
    requires IsExpansion(lib, path, cal, r, before) && IsExpansion(lib, path, cal', r, after)
    requires forall other :: other != at ==> LastOverride(cal', other) == LastOverride(cal, other)
    ensures forall x :: x in before && x.body.recurrenceId != Some(at) ==> x in after
  {
    forall x | x in before && x.body.recurrenceId != Some(at) ensures x in after {
      var i :| 0 <= i < |before| && before[i] == x;
      var other := x.body.recurrenceId.value;
      assert Lists(before, other);
      assert IsListed(lib, cal', r, other);
      var j :| 0 <= j < |after| && after[j].body.recurrenceId == Some(other);
      assert after[j] == Listed(path, cal', other) == Listed(path, cal, other) == x;
    }
  }

  // ---- Times of an occurrence ----

  /** An occurrence without override starts at its recurrence id and lasts as long as the master,
      up to the longest time.Duration; it is no series itself and otherwise reads as the master. */
  lemma OccurrenceTimes(path: string, cal: seq<Component>, at: int)
    requires Master(cal).Some? && LastOverride(cal, at).None?
    requires Span(Master(cal).value).Some? && 0 < Span(Master(cal).value).value <= Invitations.MAX_SECONDS
    ensures var b, master := Listed(path, cal, at).body, Master(cal).value;
            && b.start == b.recurrenceId == Some(at)
            && b.duration.Some? && at + b.duration.value == at + (master.dtend.value - master.dtstart.value)
            && !b.recurring && b.fields == master.body.fields && b.isOverride == master.body.isOverride
  {
  }

  // ---- Lookup against listing ----

  /** A body apart from its place in the series. */
  function Content(b: Body): Body { b.(recurrenceId := None, isOverride := true) }

  /** A lookup agrees with the listing, apart from the ETag: where overrides exist, exactly when
      the first and the last for the id read the same; elsewhere, exactly when the master's span
      is positive or unknown, or its own duration is absent. */
  lemma LookupAgreesIff(path: string, cal: seq<Component>, etag: string, at: int)
    requires Master(cal).Some?
    ensures var master := Master(cal).value;
            Resolved(path, cal, etag, at) == Some(Listed(path, cal, at).(etag := etag)) <==>
            if LastOverride(cal, at).Some?
            then FirstOverride(cal, at).Some? && Content(FirstOverride(cal, at).value.body) == Content(LastOverride(cal, at).value.body)
            else master.dtstart.None? || master.dtend.None? || master.dtend.value > master.dtstart.value || master.body.duration.None?
  {
    var o, f := LastOverride(cal, at), FirstOverride(cal, at);
    if o.Some? && f.Some? {
      SameOverriding(path, f.value, o.value, at);
    }
  }

  lemma SameOverriding(path: string, a: Component, b: Component, at: int)
    requires a.VEvent? && b.VEvent? && Overrides(a, at) && Overrides(b, at)
    ensures Overriding(path, a, at) == Overriding(path, b, at) <==>
            Content(a.body) == Content(b.body)
  {
  }

  ghost predicate OneOverride(cal: seq<Component>, at: int) {
    forall i, j :: 0 <= i < |cal| && 0 <= j < |cal| && Overrides(cal[i], at) && Overrides(cal[j], at) ==> i == j
  }

  /** With one override for the id and a positive span, lookup and listing agree. */
  lemma LookupAgrees(path: string, cal: seq<Component>, etag: string, at: int)
    requires Master(cal).Some? && OneOverride(cal, at)
    requires Span(Master(cal).value).Some? && Span(Master(cal).value).value > 0
    ensures Resolved(path, cal, etag, at) == Some(Listed(path, cal, at).(etag := etag))
  {
    if LastOverride(cal, at).Some? {
      var c, d := FirstOverride(cal, at).value, LastOverride(cal, at).value;
      var i :| 0 <= i < |cal| && cal[i] == c;
      var j :| 0 <= j < |cal| && cal[j] == d;
    }
  }

  /** Two overrides for one occurrence: the listing shows the second and a lookup the first. */
  lemma TwoOverridesDisagree(path: string, etag: string, master: Component, first: Component, second: Component, at: int)
    requires IsMaster(master) && first.VEvent? && Overrides(first, at) && second.VEvent? && Overrides(second, at)
    requires Content(first.body) != Content(second.body)
    ensures var cal := [master, first, second];
            && Master(cal) == Some(master)
            && Listed(path, cal, at) == Overriding(path, second, at)
            && Resolved(path, cal, etag, at) == Some(Overriding(path, first, at).(etag := etag))
            && Resolved(path, cal, etag, at) != Some(Listed(path, cal, at).(etag := etag))
  {
    var cal := [master, first, second];
    assert cal[1..] == [first, second] && cal[..2] == [master, first];
    assert First([first, second], OverrideAt(at)) == Some(first);
    LastAppend([master, first], second, OverrideAt(at));
    assert [master, first] + [second] == cal;
    SameOverriding(path, first, second, at);
  }
}
