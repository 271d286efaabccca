/** internal/mail/imap/idle.go and internal/notify/notify.go over internal/mail/imap/delta.go: a
    change in the folder, the capacity-one signal it raises, and the drain loop that syncs and
    delivers. A sync is two round trips, with the server free to change between them. */
module Watch {
  import opened Wrappers
  import opened Sequences
  import opened Mailbox
  import opened MessageIds
  import opened MailboxHistory
  import Delta
  import Server = Mailbox

  const INBOX: string := "INBOX"

  /** What a SyncFunc returns: the changed ids and the next token. */
  datatype Page = Page(ids: seq<Opaque>, next: Opaque)

  /** The adapter of notify.Run: the ids of the changed messages; the removed ones are dropped. */
  function Adapted(page: Delta.Page): Page { Page(Map(page.changed, (m: Delta.Message) => m.id), page.next) }

  method Adapt(page: Delta.Page) returns (r: Page)
    ensures r == Adapted(page)
  {
    var ids := [];
    for i := 0 to |page.changed|
      invariant ids == Adapted(page).ids[..i]
    {
      ids := ids + [page.changed[i].id];
    }
    r := Page(ids, page.next);
  }

  /** The variables of RunResource, and the batches handed to Notify. */
  datatype Loop = Loop(token: Opaque, batches: seq<seq<Opaque>>)

  /** onChange: a failed sync keeps the token, a successful one advances it and delivers a
      non-empty batch. */
  function Changed(l: Loop, reply: Option<Page>): Loop {
    match reply
    case None => l
    case Some(page) => Loop(page.next, if page.ids == [] then l.batches else l.batches + [page.ids])
  }

  class RunResource {
    var token: Opaque
    var batches: seq<seq<Opaque>>

    /** The baseline sync delivers nothing. */
    constructor (baseline: Page)
      ensures Contents() == Loop(baseline.next, [])
    {
      token, batches := baseline.next, [];
    }

    function Contents(): Loop
      reads this
    {
      Loop(token, batches)
    }

    method OnChange(reply: Option<Page>)
      modifies this
      ensures Contents() == Changed(old(Contents()), reply)
    {
      if reply.None? {
        return;
      }
      token := reply.value.next;
      if reply.value.ids == [] {
        return;
      }
      batches := batches + [reply.value.ids];
    }
  }

  // ---- One sync ----

  /** A sync from the token taken at one point of the folder's history: SELECT at next fixes the
      following token, FETCH at upto reads the data. */
  datatype Sync = Sync(from: nat, next: nat, upto: nat, data: FetchData)

  predicate Ordered(h: History, y: Sync) { y.from <= y.next <= y.upto <= |h.log| }

  function Token(mb: Mailbox): Opaque { EncodeDeltaToken(mb.uidValidity, mb.highest) }

  /** Whether the SELECT finds the folder recreated since the token. */
  predicate Recreated(h: History, y: Sync)
    requires Ordered(h, y)
  {
    Epoch(h, y.next) != Epoch(h, y.from)
  }

  /** The server answers what was asked, and no folder is recreated under an open selection. */
  ghost predicate Honest(h: History, y: Sync) {
    && Ordered(h, y)
    && Epoch(h, y.upto) == Epoch(h, y.next)
    && if Recreated(h, y) then AnswersFull(At(h, y.next), At(h, y.upto), y.data)
       else AnswersSince(At(h, y.upto), At(h, y.from).highest, y.data)
  }

  function Outcome(h: History, y: Sync, token: Opaque): Result<Delta.Page, Delta.DeltaError>
    requires Ordered(h, y)
  {
    Delta.Outcome(None, Some(token), true, Some(Server.Select(At(h, y.next))), Some(y.data))
  }

  /** The ids a sync reports. */
  function Ids(h: History, y: Sync): seq<Opaque>
    requires Ordered(h, y)
  {
    match Outcome(h, y, Token(At(h, y.from)))
    case Err(_) => []
    case Ok(page) => Adapted(page).ids
  }

  /** A sync from a token the loop holds succeeds, and its token is that of the SELECT. */
  lemma OutcomeIs(h: History, y: Sync)
    requires Valid(h.base) && Ordered(h, y)
    ensures var r := Outcome(h, y, Token(At(h, y.from))); r.Ok? && Adapted(r.value) == Page(Ids(h, y), Token(At(h, y.next)))
  {
    var was := At(h, y.from);
    Later(h, y.from, y.next);
    DeltaTokenRoundTrip(was.uidValidity, was.highest);
  }

  // ---- The protocol ----

  /** Where the drain goroutine is: waiting, holding a signal, between SELECT and FETCH, or holding
      what the sync returned. */
  datatype Phase = Waiting | Taken | Selected(next: nat) | Read(sync: Sync, page: Page)

  /** signalled says how much of the history the unilateral-data handler has been told of, and
      failed whether the last sync failed. The program does not hold at, the point its token was
      taken at, nor syncs, the successful syncs so far. */
  datatype State = State(history: History, signalled: nat, pending: bool, phase: Phase, loop: Loop, failed: bool,
                         at: nat, syncs: seq<Sync>)

  datatype Step =
    | Change(change: Server.Change)
    | Push(upto: nat)
    | Take
    | Select
    | Fetch(data: FetchData)
    | Finish
    | Fail

  function Fetching(s: State, data: FetchData): Sync
    requires s.phase.Selected?
  {
    Sync(s.at, s.phase.next, |s.history.log|, data)
  }

  ghost predicate Enabled(s: State, step: Step) {
    match step
    case Change(c) => s.phase.Selected? ==> !c.Recreate?
    case Push(upto) => s.signalled <= upto <= |s.history.log|
    case Take => s.phase.Waiting? && s.pending
    case Select => s.phase.Taken?
    case Fetch(data) => s.phase.Selected? && Honest(s.history, Fetching(s, data))
    case Finish => s.phase.Read?
    case Fail => s.phase.Taken? || s.phase.Selected?
  }

  function Failed(s: State): State { s.(phase := Waiting, loop := Changed(s.loop, None), failed := true) }

  ghost function Next(s: State, step: Step): State
    requires Enabled(s, step)
  {
    match step
    case Change(c) => s.(history := s.history.(log := s.history.log + [c]))
    case Push(upto) => s.(signalled := upto, pending := true)
    case Take => s.(pending := false, phase := Taken)
    case Select => s.(phase := Selected(|s.history.log|))
    case Fetch(data) =>
      (match Outcome(s.history, Fetching(s, data), s.loop.token)
       case Err(_) => Failed(s)
       case Ok(page) => s.(phase := Read(Fetching(s, data), Adapted(page))))
    case Finish =>
      s.(phase := Waiting, loop := Changed(s.loop, Some(s.phase.page)), failed := false,
         at := s.phase.sync.next, syncs := s.syncs + [s.phase.sync])
    case Fail => Failed(s)
  }

  // ---- The invariant ----

  /** A change signalled beyond the token is pending, about to be read, being delivered, or was
      met by a failed sync. */
  predicate NoLostWakeUp(s: State) {
    s.signalled > s.at ==>
      || s.pending || s.phase.Taken? || s.failed
      || (s.phase.Selected? && s.signalled <= s.phase.next)
      || (s.phase.Read? && s.signalled <= s.phase.sync.next)
  }

  function LastUpto(syncs: seq<Sync>): nat { if syncs == [] then 0 else syncs[|syncs| - 1].upto }

  /** No gap: each sync starts from the token of the one before, and selects after that one fetched. */
  ghost predicate Chain(h: History, syncs: seq<Sync>, baseline: nat, at: nat)
    decreases |syncs|
  {
    if syncs == [] then at == baseline <= |h.log|
    else
      var init, last := syncs[..|syncs| - 1], syncs[|syncs| - 1];
      Honest(h, last) && last.next == at && LastUpto(init) <= last.next && Chain(h, init, baseline, last.from)
  }

  /** What was handed to Notify: the ids of each sync that reported any. */
  ghost function Batches(h: History, syncs: seq<Sync>): seq<seq<Opaque>>
    requires forall y :: y in syncs ==> Ordered(h, y)
  {
    if syncs == [] then []
    else
      var ids := Ids(h, syncs[|syncs| - 1]);
      Batches(h, syncs[..|syncs| - 1]) + if ids == [] then [] else [ids]
  }

  lemma {:induction false} ChainOrdered(h: History, syncs: seq<Sync>, baseline: nat, at: nat)
    requires Chain(h, syncs, baseline, at)
    ensures baseline <= at <= |h.log| && LastUpto(syncs) <= |h.log|
    ensures forall y :: y in syncs ==> Honest(h, y)
  {
    if syncs != [] {
      var last := syncs[|syncs| - 1];
      assert syncs == syncs[..|syncs| - 1] + [last];
      ChainOrdered(h, syncs[..|syncs| - 1], baseline, last.from);
    }
  }

  /** The token is that of its point, and what was delivered is what the syncs reported. */
  ghost predicate Delivered(s: State, baseline: nat) {
    && Valid(s.history.base)
    && Chain(s.history, s.syncs, baseline, s.at)
    && s.at <= |s.history.log| && s.loop.token == Token(At(s.history, s.at))
    && (forall y :: y in s.syncs ==> Ordered(s.history, y)) && s.loop.batches == Batches(s.history, s.syncs)
  }

  ghost predicate InPhase(s: State) {
    match s.phase
    case Selected(next) =>
      && s.at <= next <= |s.history.log| && LastUpto(s.syncs) <= next
      && Epoch(s.history, next) == Now(s.history).uidValidity
      && (s.signalled > next ==> s.pending)
    case Read(y, page) =>
      && Honest(s.history, y) && y.from == s.at && LastUpto(s.syncs) <= y.next
      && page == Page(Ids(s.history, y), Token(At(s.history, y.next)))
      && (s.signalled > y.next ==> s.pending)
    case _ => true
  }

  ghost predicate Inv(s: State, baseline: nat) {
    NoLostWakeUp(s) && s.signalled <= |s.history.log| && Delivered(s, baseline) && InPhase(s)
  }

  /** The state when the callback has been installed: the baseline token is taken, and changes since
      then have raised no signal. */
  predicate Installed(s: State, baseline: nat) {
    && baseline <= |s.history.log| && s.signalled == baseline && !s.pending && s.phase.Waiting? && !s.failed
    && s.loop == Loop(Token(At(s.history, baseline)), []) && s.at == baseline && s.syncs == []
  }

  // ---- Each step keeps it ----

  lemma ExtendedSync(h: History, c: Server.Change, y: Sync)
    requires Ordered(h, y)
    ensures var h' := h.(log := h.log + [c]);
            Ordered(h', y) && (Honest(h', y) <==> Honest(h, y)) && Ids(h', y) == Ids(h, y)
  {
    Extended(h, c, y.from);
    Extended(h, c, y.next);
    Extended(h, c, y.upto);
  }

  lemma {:induction false} ExtendedChain(h: History, c: Server.Change, syncs: seq<Sync>, baseline: nat, at: nat)
    requires Chain(h, syncs, baseline, at)
    ensures var h' := h.(log := h.log + [c]);
            && Chain(h', syncs, baseline, at)
            && (forall y :: y in syncs ==> Ordered(h, y) && Ordered(h', y))
            && Batches(h', syncs) == Batches(h, syncs)
  {
    if syncs != [] {
      var last := syncs[|syncs| - 1];
      assert syncs == syncs[..|syncs| - 1] + [last];
      ExtendedSync(h, c, last);
      ExtendedChain(h, c, syncs[..|syncs| - 1], baseline, last.from);
    }
  }

  lemma ChangeKeepsDelivered(s: State, c: Server.Change, baseline: nat)
    requires Delivered(s, baseline)
    ensures Delivered(s.(history := s.history.(log := s.history.log + [c])), baseline)
  {
    ExtendedChain(s.history, c, s.syncs, baseline, s.at);
    Extended(s.history, c, s.at);
  }

  lemma ChangeKeepsEpoch(h: History, c: Server.Change, next: nat)
    requires next <= |h.log| && Epoch(h, next) == Now(h).uidValidity && !c.Recreate?
    ensures var h' := h.(log := h.log + [c]); Epoch(h', next) == Now(h').uidValidity
  {
    var h' := h.(log := h.log + [c]);
    Extended(h, c, next);
    Extended(h, c, |h.log|);
    Reached(h', |h.log|, |h'.log|);
    assert h'.log[|h.log|..|h'.log|] == [c] && [c][1..] == [];
  }

  lemma ChangeKeepsPhase(s: State, c: Server.Change)
    requires InPhase(s) && Enabled(s, Change(c))
    ensures InPhase(Next(s, Change(c)))
  {
    match s.phase
    case Selected(next) => ChangeKeepsEpoch(s.history, c, next);
    case Read(y, _) =>
      ExtendedSync(s.history, c, y);
      Extended(s.history, c, y.next);
    case _ =>
  }

  lemma ChangeKeepsInv(s: State, c: Server.Change, baseline: nat)
    requires Inv(s, baseline) && Enabled(s, Change(c))
    ensures Inv(Next(s, Change(c)), baseline)
  {
    ChangeKeepsDelivered(s, c, baseline);
    ChangeKeepsPhase(s, c);
  }

  lemma FetchKeepsInv(s: State, data: FetchData, baseline: nat)
    requires Inv(s, baseline) && Enabled(s, Fetch(data))
    ensures Inv(Next(s, Fetch(data)), baseline) && Next(s, Fetch(data)).phase.Read?
  {
    OutcomeIs(s.history, Fetching(s, data));
  }

  lemma FinishKeepsInv(s: State, baseline: nat)
    requires Inv(s, baseline) && Enabled(s, Finish)
    ensures Inv(Next(s, Finish), baseline)
  {
    var s' := Next(s, Finish);
    var y := s.phase.sync;
    assert s'.syncs[..|s'.syncs| - 1] == s.syncs;
  }

  lemma SelectKeepsInv(s: State, baseline: nat)
    requires Inv(s, baseline) && Enabled(s, Select)
    ensures Inv(Next(s, Select), baseline)
  {
    ChainOrdered(s.history, s.syncs, baseline, s.at);
  }

  lemma StepKeepsInv(s: State, step: Step, baseline: nat)
    requires Inv(s, baseline) && Enabled(s, step)
    ensures Inv(Next(s, step), baseline)
  {
    match step
    case Change(c) => ChangeKeepsInv(s, c, baseline);
    case Select => SelectKeepsInv(s, baseline);
    case Fetch(data) => FetchKeepsInv(s, data, baseline);
    case Finish => FinishKeepsInv(s, baseline);
    case _ =>
  }

  ghost predicate Runs(s: State, steps: seq<Step>)
    decreases |steps|
  {
    steps == [] || (Enabled(s, steps[0]) && Runs(Next(s, steps[0]), steps[1..]))
  }

  ghost function After(s: State, steps: seq<Step>): State
    requires Runs(s, steps)
    decreases |steps|
  {
    if steps == [] then s else After(Next(s, steps[0]), steps[1..])
  }

  lemma {:induction false} RunKeepsInv(s: State, steps: seq<Step>, baseline: nat)
    requires Inv(s, baseline) && Runs(s, steps)
    ensures Inv(After(s, steps), baseline)
    decreases |steps|
  {
    if steps != [] {
      StepKeepsInv(s, steps[0], baseline);
      RunKeepsInv(Next(s, steps[0]), steps[1..], baseline);
    }
  }

  /** In every interleaving of changes, pushes and the drain loop no wake-up is lost, the syncs
      follow each other without gap, and what was delivered is what they reported. */
  lemma NothingLost(s: State, steps: seq<Step>, baseline: nat)
    requires Valid(s.history.base) && Installed(s, baseline) && Runs(s, steps)
    ensures var t := After(s, steps); NoLostWakeUp(t) && Delivered(t, baseline) && InPhase(t)
  {
    RunKeepsInv(s, steps, baseline);
  }
}
