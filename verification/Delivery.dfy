/** What the notification loop delivers: which messages a sync reports, that none is missed, which
    are reported twice, and what the drain loop does when it is left alone. */
module Delivery {
  import opened Wrappers
  import opened Sequences
  import opened Mailbox
  import opened MessageIds
  import opened MailboxHistory
  import opened Watch
  import Delta
  import Server = Mailbox

  function Id(epoch: nat, uid: nat): Opaque { MessageId(INBOX, epoch, uid) }

  // ---- What one sync reports ----

  lemma IdsOf(h: History, y: Sync)
    requires Valid(h.base) && Ordered(h, y)
    ensures Ids(h, y) ==
            if Recreated(h, y) && At(h, y.next).live == map[] then []
            else Map(Delta.NewestFirst(INBOX, Epoch(h, y.next), y.data.bufs), (m: Delta.Message) => m.id)
  {
    var was, sel := At(h, y.from), At(h, y.next);
    Later(h, y.from, y.next);
    DeltaTokenRoundTrip(was.uidValidity, was.highest);
    if |sel.live| == 0 {
      assert sel.live == map[];
    }
  }

  lemma IdListed(h: History, y: Sync, e: nat, u: nat)
    requires Valid(h.base) && Honest(h, y)
    ensures Id(e, u) in Ids(h, y) <==> e == Epoch(h, y.next) && Reports(y.data.bufs, u)
  {
    IdsOf(h, y);
    if y.data.bufs != [] {
      ListedIff(y.data.bufs, Epoch(h, y.next), e, u);
    }
  }

  lemma ListedIff(bufs: seq<Buffer>, v: nat, e: nat, u: nat)
    requires bufs != []
    ensures Id(e, u) in Map(Delta.NewestFirst(INBOX, v, bufs), (m: Delta.Message) => m.id) <==> e == v && Reports(bufs, u)
  {
    var msgs := Delta.NewestFirst(INBOX, v, bufs);
    var ids := Map(msgs, (m: Delta.Message) => m.id);
    Delta.NewestFirstAt(INBOX, v, bufs, 0);
    if Id(e, u) in ids {
      var i :| 0 <= i < |ids| && ids[i] == Id(e, u);
      Delta.NewestFirstAt(INBOX, v, bufs, i);
      MessageIdInjective(Location(INBOX, v, bufs[|bufs| - 1 - i].uid), Location(INBOX, e, u));
    }
    if e == v && Reports(bufs, u) {
      var i :| 0 <= i < |bufs| && bufs[i].uid == u;
      Delta.NewestFirstAt(INBOX, v, bufs, |bufs| - 1 - i);
      assert ids[|bufs| - 1 - i] == Id(e, u);
    }
  }

  /** A sync of the token's own incarnation reports exactly the messages present at its FETCH that
      changed after the token. */
  lemma ReportsChangedIff(h: History, y: Sync, u: nat)
    requires Valid(h.base) && Honest(h, y) && !Recreated(h, y)
    ensures Id(Epoch(h, y.next), u) in Ids(h, y) <==>
            u in At(h, y.upto).live && At(h, y.upto).live[u].modSeq > At(h, y.from).highest
  {
    IdListed(h, y, Epoch(h, y.next), u);
  }

  /** A sync of a recreated folder is a first sync again: it reports messages present at its SELECT,
      and every one of them that is still present at its FETCH. */
  lemma ReportsPresent(h: History, y: Sync, u: nat)
    requires Valid(h.base) && Honest(h, y) && Recreated(h, y)
    ensures Id(Epoch(h, y.next), u) in Ids(h, y) ==> u in At(h, y.next).live
    ensures u in At(h, y.next).live && u in At(h, y.upto).live ==> Id(Epoch(h, y.next), u) in Ids(h, y)
    ensures Outcome(h, y, Token(At(h, y.from))) ==
            Delta.Outcome(None, None, true, Some(Server.Select(At(h, y.next))), Some(y.data))
  {
    IdListed(h, y, Epoch(h, y.next), u);
    Later(h, y.from, y.next);
    DeltaTokenRoundTrip(At(h, y.from).uidValidity, At(h, y.from).highest);
    Delta.ForeignTokenIsInitialSync(None, Token(At(h, y.from)), true, Server.Select(At(h, y.next)), Some(y.data));
  }

  /** However often a message changed between two syncs, one sync reports it once. */
  lemma ReportedOnce(h: History, y: Sync)
    requires Valid(h.base) && Honest(h, y)
    ensures NoDuplicates(Ids(h, y))
  {
    var bufs, v, ids := y.data.bufs, Epoch(h, y.next), Ids(h, y);
    IdsOf(h, y);
    if bufs != [] {
      Delta.NewestFirstAt(INBOX, v, bufs, 0);
    }
    forall i, j | 0 <= i < j < |ids| ensures ids[i] != ids[j] {
      Delta.NewestFirstAt(INBOX, v, bufs, i);
      Delta.NewestFirstAt(INBOX, v, bufs, j);
      if ids[i] == ids[j] {
        MessageIdInjective(Location(INBOX, v, bufs[|bufs| - 1 - i].uid), Location(INBOX, v, bufs[|bufs| - 1 - j].uid));
      }
    }
  }

  /** Expunges raise the signal and are reported to nobody. */
  lemma ExpungesAreSilent(h: History, y: Sync)
    requires Valid(h.base) && Honest(h, y) && forall c :: c in h.log[y.from..y.upto] ==> c.Expunge?
    ensures Ids(h, y) == []
  {
    Reached(h, y.from, y.upto);
    Later(h, y.from, y.next);
    Later(h, y.next, y.upto);
    OnlyExpunged(At(h, y.from), h.log[y.from..y.upto]);
    if y.data.bufs != [] {
      assert Reports(y.data.bufs, y.data.bufs[0].uid);
    }
    assert y.data.bufs == [];
    IdsOf(h, y);
  }

  // ---- Nothing is missed ----

  ghost predicate InBatch(batches: seq<seq<Opaque>>, id: Opaque) { exists b :: b in batches && id in b }

  lemma BatchesLast(h: History, syncs: seq<Sync>)
    requires syncs != [] && forall y :: y in syncs ==> Ordered(h, y)
    ensures forall id :: InBatch(Batches(h, syncs), id) <==>
                         InBatch(Batches(h, syncs[..|syncs| - 1]), id) || id in Ids(h, syncs[|syncs| - 1])
  {
    var init, ids := Batches(h, syncs[..|syncs| - 1]), Ids(h, syncs[|syncs| - 1]);
    forall id ensures InBatch(Batches(h, syncs), id) <==> InBatch(init, id) || id in ids {
      if id in ids {
        assert ids in init + [ids];
      }
      if InBatch(init, id) {
        var b :| b in init && id in b;
        assert b in Batches(h, syncs);
      }
    }
  }

  /** Changed after the baseline, as the folder is at the token's point, and still there. */
  ghost predicate Owed(h: History, baseline: nat, at: nat, u: nat)
    requires baseline <= |h.log| && at <= |h.log|
  {
    && Epoch(h, at) == Now(h).uidValidity && u in At(h, at).live && u in Now(h).live
    && (Epoch(h, baseline) != Epoch(h, at) || At(h, at).live[u].modSeq > At(h, baseline).highest)
  }

  /** One sync: what it selects and what is owed is reported by it, or was owed before. */
  lemma SyncPays(h: History, y: Sync, baseline: nat, u: nat)
    requires Valid(h.base) && Honest(h, y) && baseline <= y.from && Owed(h, baseline, y.next, u)
    ensures Id(Epoch(h, y.next), u) in Ids(h, y) || (Owed(h, baseline, y.from, u) && !Recreated(h, y))
  {
    LiveBetween(h, y.next, y.upto, |h.log|, u);
    if Recreated(h, y) {
      ReportsPresent(h, y, u);
    } else {
      ReportsChangedIff(h, y, u);
      Later(h, y.from, y.next);
    }
  }

  /** Syncs that follow each other without gap have reported every message that is owed. */
  lemma {:induction false} ChainPays(h: History, syncs: seq<Sync>, baseline: nat, at: nat, u: nat)
    requires Valid(h.base) && Chain(h, syncs, baseline, at) && forall y :: y in syncs ==> Ordered(h, y)
    requires baseline <= at <= |h.log| && Owed(h, baseline, at, u)
    ensures InBatch(Batches(h, syncs), Id(Epoch(h, at), u))
    decreases |syncs|
  {
    if syncs == [] {
      Later(h, at, at);
      assert false;
    } else {
      var init, y := syncs[..|syncs| - 1], syncs[|syncs| - 1];
      assert syncs == init + [y];
      ChainOrdered(h, init, baseline, y.from);
      SyncPays(h, y, baseline, u);
      BatchesLast(h, syncs);
      if Id(Epoch(h, at), u) !in Ids(h, y) {
        ChainPays(h, init, baseline, y.from, u);
      }
    }
  }

  /** At rest after a successful sync the token covers everything signalled, and every message still
      there that changed between the baseline and the token has been delivered at least once. */
  lemma RestIsComplete(s: State, steps: seq<Step>, baseline: nat)
    requires Valid(s.history.base) && Installed(s, baseline) && Runs(s, steps)
    requires var t := After(s, steps); !t.pending && t.phase.Waiting? && !t.failed
    ensures var t := After(s, steps);
            && baseline <= t.at <= |t.history.log| && t.signalled <= t.at
            && forall u :: Owed(t.history, baseline, t.at, u) ==> InBatch(t.loop.batches, Id(Epoch(t.history, t.at), u))
  {
    NothingLost(s, steps, baseline);
    var t := After(s, steps);
    ChainOrdered(t.history, t.syncs, baseline, t.at);
    forall u: nat | Owed(t.history, baseline, t.at, u) ensures InBatch(t.loop.batches, Id(Epoch(t.history, t.at), u)) {
      ChainPays(t.history, t.syncs, baseline, t.at, u);
    }
  }

  // ---- What is delivered twice ----

  /** y reports message u of incarnation e as its change number m left it. */
  ghost predicate Reported(h: History, y: Sync, e: nat, u: nat, m: nat)
    requires Ordered(h, y)
  {
    Has(h, y.upto, e, u, m) && Id(e, u) in Ids(h, y)
  }

  ghost predicate Has(h: History, k: nat, e: nat, u: nat, m: nat)
    requires k <= |h.log|
  {
    Epoch(h, k) == e && u in At(h, k).live && At(h, k).live[u].modSeq == m
  }

  /** Changed between the SELECT and the FETCH of y, and in what y fetches. */
  ghost predicate Late(h: History, y: Sync, e: nat, u: nat, m: nat)
    requires Ordered(h, y)
  {
    Has(h, y.upto, e, u, m) && m > At(h, y.next).highest && (Recreated(h, y) ==> u in At(h, y.next).live)
  }

  /** The same change is delivered by two syncs in a row exactly when it fell between the SELECT and
      the FETCH of the first and the message has not changed since. */
  lemma RepeatedIff(h: History, a: Sync, b: Sync, e: nat, u: nat, m: nat)
    requires Valid(h.base) && Honest(h, a) && Honest(h, b) && b.from == a.next && a.upto <= b.next
    ensures Reported(h, a, e, u, m) && Reported(h, b, e, u, m) <==> Late(h, a, e, u, m) && Has(h, b.upto, e, u, m)
  {
    Later(h, a.from, a.next);
    Later(h, a.next, b.next);
    Later(h, a.upto, b.next);
    if Epoch(h, a.upto) == e == Epoch(h, b.upto) {
      ReportsChangedIff(h, b, u);
      if Recreated(h, a) {
        ReportsPresent(h, a, u);
      } else {
        ReportsChangedIff(h, a, u);
      }
    }
  }

  /** And never by two syncs further apart. */
  lemma NotReportedAgain(h: History, a: Sync, b: Sync, e: nat, u: nat, m: nat)
    requires Valid(h.base) && Honest(h, a) && Honest(h, b) && a.upto <= b.from
    ensures !(Reported(h, a, e, u, m) && Reported(h, b, e, u, m))
  {
    Later(h, a.upto, b.from);
    Later(h, b.from, b.next);
    if Epoch(h, a.upto) == e == Epoch(h, b.upto) && Has(h, a.upto, e, u, m) {
      ReportsChangedIff(h, b, u);
    }
  }

  lemma {:induction false} ChainLinks(h: History, syncs: seq<Sync>, baseline: nat, at: nat, k: nat)
    requires Chain(h, syncs, baseline, at) && k < |syncs|
    ensures Honest(h, syncs[k]) && syncs[k].next <= at
    ensures k + 1 < |syncs| ==> syncs[k + 1].from == syncs[k].next && syncs[k].upto <= syncs[k + 1].next
    ensures forall j :: k < j < |syncs| ==> syncs[k].upto <= syncs[j].next
    decreases |syncs|
  {
    var init, last := syncs[..|syncs| - 1], syncs[|syncs| - 1];
    if k < |init| {
      ChainLinks(h, init, baseline, last.from, k);
      ChainLinks(h, init, baseline, last.from, |init| - 1);
      assert init[|init| - 1].upto <= last.next && init[k] == syncs[k];
      assert forall j :: k < j < |init| ==> init[j] == syncs[j];
      if k + 1 < |init| {
        assert syncs[k].upto <= init[|init| - 1].next;
      }
    }
  }

  lemma ChainPair(h: History, syncs: seq<Sync>, baseline: nat, at: nat, i: nat, j: nat)
    requires Chain(h, syncs, baseline, at) && i < j < |syncs|
    ensures Honest(h, syncs[i]) && Honest(h, syncs[j]) && syncs[i].upto <= syncs[j].next
    ensures if j == i + 1 then syncs[j].from == syncs[i].next else syncs[i].upto <= syncs[j].from
  {
    ChainLinks(h, syncs, baseline, at, i);
    ChainLinks(h, syncs, baseline, at, j);
    ChainLinks(h, syncs, baseline, at, j - 1);
  }

  /** Over any chain of syncs, and so in every run: a change is delivered by at most two syncs, by
      neighbours, and by both exactly when it fell between the SELECT and the FETCH of the first and
      the message has not changed since. */
  lemma DeliveredTwiceIff(h: History, syncs: seq<Sync>, baseline: nat, at: nat, i: nat, j: nat, e: nat, u: nat, m: nat)
    requires Valid(h.base) && Chain(h, syncs, baseline, at) && i < j < |syncs|
    ensures Honest(h, syncs[i]) && Honest(h, syncs[j])
    ensures Reported(h, syncs[i], e, u, m) && Reported(h, syncs[j], e, u, m) <==>
            j == i + 1 && Late(h, syncs[i], e, u, m) && Has(h, syncs[j].upto, e, u, m)
  {
    ChainPair(h, syncs, baseline, at, i, j);
    TwiceIff(h, syncs[i], syncs[j], j == i + 1, e, u, m);
  }

  lemma TwiceIff(h: History, a: Sync, b: Sync, neighbours: bool, e: nat, u: nat, m: nat)
    requires Valid(h.base) && Honest(h, a) && Honest(h, b) && a.upto <= b.next
    requires if neighbours then b.from == a.next else a.upto <= b.from
    ensures Reported(h, a, e, u, m) && Reported(h, b, e, u, m) <==> neighbours && Late(h, a, e, u, m) && Has(h, b.upto, e, u, m)
  {
    if neighbours {
      RepeatedIff(h, a, b, e, u, m);
    } else {
      NotReportedAgain(h, a, b, e, u, m);
    }
  }

  // ---- Letting the drain loop finish ----

  predicate Drains(step: Step) { step.Take? || step.Select? || step.Fetch? || step.Finish? }

  predicate AtRest(s: State) { s.phase.Waiting? && !s.pending }

  /** Everything signalled is behind the token, or the loop is on its way to it. */
  predicate OnItsWay(s: State) {
    || s.at >= s.signalled || s.pending || s.phase.Taken?
    || (s.phase.Selected? && s.phase.next >= s.signalled)
    || (s.phase.Read? && s.phase.sync.next >= s.signalled)
  }

  lemma DrainStep(s: State, step: Step, baseline: nat)
    requires Inv(s, baseline) && Enabled(s, step) && Drains(step)
    ensures Inv(Next(s, step), baseline) && Next(s, step).signalled == s.signalled
    ensures OnItsWay(Next(s, step)) <==> OnItsWay(s)
  {
    StepKeepsInv(s, step, baseline);
    match step
    case Fetch(data) => FetchKeepsInv(s, data, baseline);
    case _ =>
  }

  /** Left alone and answered, the drain loop comes to rest with everything signalled behind its token
      exactly when something was pending, taken, or selected or read far enough: a last sync that
      failed is not retried by itself. */
  lemma {:induction false} DrainDeliversIff(s: State, steps: seq<Step>, baseline: nat)
    requires Inv(s, baseline) && Runs(s, steps) && AtRest(After(s, steps))
    requires forall step :: step in steps ==> Drains(step)
    ensures After(s, steps).signalled == s.signalled
    ensures After(s, steps).at >= s.signalled <==> OnItsWay(s)
    decreases |steps|
  {
    if steps != [] {
      DrainStep(s, steps[0], baseline);
      DrainDeliversIff(Next(s, steps[0]), steps[1..], baseline);
    }
  }

  lemma OneStep(s: State, step: Step, rest: seq<Step>)
    requires Enabled(s, step) && Runs(Next(s, step), rest)
    ensures Runs(s, [step] + rest) && After(s, [step] + rest) == After(Next(s, step), rest)
  {
    assert ([step] + rest)[1..] == rest;
  }

  lemma FetchReads(s: State, data: FetchData, baseline: nat)
    requires Inv(s, baseline) && s.phase.Selected? && Enabled(s, Fetch(data))
    ensures var y := Fetching(s, data);
            Next(s, Fetch(data)) == s.(phase := Read(y, Page(Ids(s.history, y), Token(At(s.history, y.next)))))
  {
    OutcomeIs(s.history, Fetching(s, data));
  }

  lemma FetchAnswered(s: State, baseline: nat) returns (data: FetchData)
    requires Inv(s, baseline) && s.phase.Selected?
    ensures Enabled(s, Fetch(data))
  {
    var h, next := s.history, s.phase.next;
    Later(h, s.at, next);
    Later(h, next, |h.log|);
    if Epoch(h, next) != Epoch(h, s.at) {
      data := FullAnswer(At(h, next), Now(h));
      FullAnswered(At(h, next), Now(h));
    } else {
      data := SinceAnswer(Now(h), At(h, s.at).highest);
      SinceAnswered(Now(h), At(h, s.at).highest);
    }
  }

  function Distance(s: State): nat {
    (match s.phase case Waiting => 0 case Taken => 3 case Selected(_) => 2 case Read(_, _) => 1) + if s.pending then 4 else 0
  }

  /** And it can: some answers of the server bring it to rest. */
  lemma {:induction false} DrainEnds(s: State, baseline: nat) returns (steps: seq<Step>)
    requires Inv(s, baseline)
    ensures Runs(s, steps) && AtRest(After(s, steps)) && forall step :: step in steps ==> Drains(step)
    decreases Distance(s)
  {
    steps := [];
    if !AtRest(s) {
      var step := DrainMoves(s, baseline);
      var rest := DrainEnds(Next(s, step), baseline);
      OneStep(s, step, rest);
      steps := [step] + rest;
    }
  }

  lemma DrainMoves(s: State, baseline: nat) returns (step: Step)
    requires Inv(s, baseline) && !AtRest(s)
    ensures Enabled(s, step) && Drains(step) && Inv(Next(s, step), baseline) && Distance(Next(s, step)) < Distance(s)
  {
    match s.phase {
      case Waiting => step := Take;
      case Taken => step := Select;
      case Selected(_) => step := DrainFetches(s, baseline);
      case Read(_, _) => step := Finish;
    }
    StepKeepsInv(s, step, baseline);
  }

  lemma DrainFetches(s: State, baseline: nat) returns (step: Step)
    requires Inv(s, baseline) && s.phase.Selected?
    ensures step.Fetch? && Enabled(s, step) && Next(s, step).phase.Read? && Next(s, step).pending == s.pending
  {
    var data := FetchAnswered(s, baseline);
    FetchReads(s, data, baseline);
    step := Fetch(data);
  }

  // ---- Two runs ----

  const A: Mail := Server.Mail("a", {})
  const B: Mail := Server.Mail("b", {})
  const FOLDER: Server.Mailbox := Server.Mailbox(1, 1, 1, map[], map[])
  const WITH_A: Server.Mailbox := Server.Mailbox(1, 2, 2, map[1 := Entry(A, 2)], map[])
  const WITH_BOTH: Server.Mailbox := Server.Mailbox(1, 3, 3, map[1 := Entry(A, 2), 2 := Entry(B, 3)], map[])

  function Starting(log: seq<Server.Change>): State {
    State(History(FOLDER, log), 0, false, Waiting, Loop(Token(FOLDER), []), false, 0, [])
  }

  lemma StartInstalled()
    ensures Valid(FOLDER) && Installed(Starting([]), 0) && Inv(Starting([]), 0)
  {
    var none: seq<Server.Change> := [];
    assert none[..0] == [];
  }

  /** The one way a signalled change stays undelivered at rest: the sync that met it failed. */
  lemma FailureStrands()
    ensures var steps := [Change(Append(A)), Push(1), Take, Fail];
            && Installed(Starting([]), 0) && Runs(Starting([]), steps)
            && var t := After(Starting([]), steps); AtRest(t) && t.signalled == 1 && t.at == 0 && t.loop.batches == []
  {
    StartInstalled();
    var s1 := Next(Starting([]), Change(Append(A)));
    var s2 := Next(s1, Push(1));
    var s3 := Next(s2, Take);
    OneStep(s3, Fail, []);
    OneStep(s2, Take, [Fail]);
    OneStep(s1, Push(1), [Take] + [Fail]);
    OneStep(Starting([]), Change(Append(A)), [Push(1)] + ([Take] + [Fail]));
    assert [Change(Append(A)), Push(1), Take, Fail] == [Change(Append(A))] + ([Push(1)] + ([Take] + [Fail]));
  }

  lemma Folders()
    ensures var h := History(FOLDER, [Append(A), Append(B)]); At(h, 0) == FOLDER && At(h, 1) == WITH_A && At(h, 2) == WITH_BOTH
  {
    var a, b: seq<Server.Change> := [Append(A)], [Append(B)];
    OneChange(FOLDER, Append(A));
    OneChange(WITH_A, Append(B));
    ApplyAllAppend(FOLDER, a, b);
    assert a + b == [Append(A), Append(B)] && (a + b)[..0] == [] && (a + b)[..1] == a && (a + b)[..2] == a + b;
  }

  lemma OneChange(mb: Server.Mailbox, c: Server.Change)
    ensures ApplyAll(mb, [c]) == Apply(mb, c)
  {
    assert [c][1..] == [];
  }

  const BOTH: FetchData := FetchData([Buffer(1, A), Buffer(2, B)], [])
  const LAST: FetchData := FetchData([Buffer(2, B)], [])

  lemma BothAnswer()
    ensures AnswersSince(WITH_BOTH, 1, BOTH) && AnswersSince(WITH_BOTH, 2, LAST)
  {
    assert BOTH.bufs[0].uid == 1 && BOTH.bufs[1].uid == 2 && LAST.bufs[0].uid == 2;
  }

  lemma FirstReported(h: History)
    requires |h.log| == 2 && h.base == FOLDER && At(h, 0) == FOLDER && At(h, 1) == WITH_A && At(h, 2) == WITH_BOTH
    ensures Honest(h, Sync(0, 1, 2, BOTH)) && Ids(h, Sync(0, 1, 2, BOTH)) == [Id(1, 2), Id(1, 1)]
  {
    BothAnswer();
    IdsOf(h, Sync(0, 1, 2, BOTH));
    BothIds();
  }

  lemma BothIds()
    ensures Map(Delta.NewestFirst(INBOX, 1, BOTH.bufs), (m: Delta.Message) => m.id) == [Id(1, 2), Id(1, 1)]
  {
    assert BOTH.bufs[1..] == [Buffer(2, B)] && [Buffer(2, B)][1..] == [];
    assert Delta.NewestFirst(INBOX, 1, [Buffer(2, B)]) == [Delta.MessageOf(INBOX, 1, Buffer(2, B))];
    assert Delta.NewestFirst(INBOX, 1, BOTH.bufs) ==
           [Delta.MessageOf(INBOX, 1, Buffer(2, B)), Delta.MessageOf(INBOX, 1, Buffer(1, A))];
  }

  lemma SecondReported(h: History)
    requires |h.log| == 2 && h.base == FOLDER && At(h, 1) == WITH_A && At(h, 2) == WITH_BOTH
    ensures Honest(h, Sync(1, 2, 2, LAST)) && Ids(h, Sync(1, 2, 2, LAST)) == [Id(1, 2)]
  {
    BothAnswer();
    IdsOf(h, Sync(1, 2, 2, LAST));
    assert LAST.bufs[1..] == [];
    assert Delta.NewestFirst(INBOX, 1, LAST.bufs) == [Delta.MessageOf(INBOX, 1, Buffer(2, B))];
  }

  /** One sync without interruption, from a state that holds a signal. */
  lemma RunsSync(s: State, data: FetchData, baseline: nat)
    requires Inv(s, baseline) && s.phase.Selected? && Enabled(s, Fetch(data))
    ensures var y := Fetching(s, data); var steps := [Fetch(data), Finish]; var ids := Ids(s.history, y);
            && Runs(s, steps)
            && After(s, steps) == s.(phase := Waiting, failed := false, at := y.next, syncs := s.syncs + [y],
                                     loop := Changed(s.loop, Some(Page(ids, Token(At(s.history, y.next))))))
            && Inv(After(s, steps), baseline)
  {
    FetchReads(s, data, baseline);
    var read := Next(s, Fetch(data));
    OneStep(read, Finish, []);
    OneStep(s, Fetch(data), [Finish]);
    assert [Fetch(data)] + [Finish] == [Fetch(data), Finish];
    RunKeepsInv(s, [Fetch(data), Finish], baseline);
  }

  lemma {:induction false} RunsAppend(s: State, a: seq<Step>, b: seq<Step>)
    requires Runs(s, a) && Runs(After(s, a), b)
    ensures Runs(s, a + b) && After(s, a + b) == After(After(s, a), b)
    decreases |a|
  {
    if a == [] {
      assert a + b == b;
    } else {
      assert (a + b)[1..] == a[1..] + b;
      RunsAppend(Next(s, a[0]), a[1..], b);
    }
  }

  const FRONT: seq<Step> := [Change(Append(A)), Push(1), Take, Select, Change(Append(B)), Push(2)]

  /** The second message arrives between the SELECT and the FETCH. */
  lemma FrontRuns()
    ensures Runs(Starting([]), FRONT) && Inv(After(Starting([]), FRONT), 0)
    ensures After(Starting([]), FRONT) == Starting([Append(A), Append(B)]).(signalled := 2, pending := true, phase := Selected(1))
  {
    var s0 := Starting([]);
    StartInstalled();
    var s1 := Next(s0, Change(Append(A)));
    var s2 := Next(s1, Push(1));
    var s3 := Next(s2, Take);
    var s4 := Next(s3, Select);
    var s5 := Next(s4, Change(Append(B)));
    assert s5.history.log == [Append(A), Append(B)];
    OneStep(s5, Push(2), []);
    OneStep(s4, Change(Append(B)), [Push(2)]);
    OneStep(s3, Select, [Change(Append(B))] + [Push(2)]);
    OneStep(s2, Take, [Select] + ([Change(Append(B))] + [Push(2)]));
    OneStep(s1, Push(1), [Take] + ([Select] + ([Change(Append(B))] + [Push(2)])));
    OneStep(s0, Change(Append(A)), [Push(1)] + ([Take] + ([Select] + ([Change(Append(B))] + [Push(2)]))));
    assert FRONT == [Change(Append(A))] + ([Push(1)] + ([Take] + ([Select] + ([Change(Append(B))] + [Push(2)]))));
    RunKeepsInv(s0, FRONT, 0);
  }

  lemma AgainRuns(s: State, data: FetchData, baseline: nat)
    requires Inv(s, baseline) && s.phase.Waiting? && s.pending
    requires Honest(s.history, Sync(s.at, |s.history.log|, |s.history.log|, data))
    ensures var n := |s.history.log|; var y := Sync(s.at, n, n, data); var steps := [Take, Select, Fetch(data), Finish];
            && Runs(s, steps) && AtRest(After(s, steps))
            && After(s, steps).loop == Changed(s.loop, Some(Page(Ids(s.history, y), Token(At(s.history, n)))))
  {
    var y := Sync(s.at, |s.history.log|, |s.history.log|, data);
    TakeAndSelect(s, baseline);
    var selected := s.(pending := false, phase := Selected(|s.history.log|));
    assert Fetching(selected, data) == y;
    RunsSync(selected, data, baseline);
    RunsAppend(s, [Take, Select], [Fetch(data), Finish]);
    assert [Take, Select] + [Fetch(data), Finish] == [Take, Select, Fetch(data), Finish];
  }

  lemma TakeAndSelect(s: State, baseline: nat)
    requires Inv(s, baseline) && s.phase.Waiting? && s.pending
    ensures Runs(s, [Take, Select])
    ensures After(s, [Take, Select]) == s.(pending := false, phase := Selected(|s.history.log|))
    ensures Inv(After(s, [Take, Select]), baseline)
  {
    var taken := Next(s, Take);
    OneStep(taken, Select, []);
    OneStep(s, Take, [Select]);
    assert [Take] + [Select] == [Take, Select];
    RunKeepsInv(s, [Take, Select], baseline);
  }

  /** A message that arrives between the SELECT and the FETCH is delivered by this sync and by the
      next one. */
  lemma ArrivalDeliveredTwice()
    ensures var steps := FRONT + [Fetch(BOTH), Finish] + [Take, Select, Fetch(LAST), Finish];
            && Installed(Starting([]), 0) && Runs(Starting([]), steps) && AtRest(After(Starting([]), steps))
            && After(Starting([]), steps).loop.batches == [[Id(1, 2), Id(1, 1)], [Id(1, 2)]]
  {
    var s0, again := Starting([]), [Take, Select, Fetch(LAST), Finish];
    StartInstalled();
    FrontRuns();
    HeldSignalRepeats(After(s0, FRONT));
    RunsAppend(s0, FRONT, [Fetch(BOTH), Finish] + again);
    assert FRONT + ([Fetch(BOTH), Finish] + again) == FRONT + [Fetch(BOTH), Finish] + again;
  }

  lemma HeldSignalRepeats(s: State)
    requires Inv(s, 0) && s == Starting([Append(A), Append(B)]).(signalled := 2, pending := true, phase := Selected(1))
    ensures var steps := [Fetch(BOTH), Finish] + [Take, Select, Fetch(LAST), Finish];
            && Runs(s, steps) && AtRest(After(s, steps)) && After(s, steps).loop.batches == [[Id(1, 2), Id(1, 1)], [Id(1, 2)]]
  {
    Folders();
    FirstReported(s.history);
    RunsSync(s, BOTH, 0);
    var t := After(s, [Fetch(BOTH), Finish]);
    SecondRepeats(t);
    RunsAppend(s, [Fetch(BOTH), Finish], [Take, Select, Fetch(LAST), Finish]);
  }

  lemma SecondRepeats(s: State)
    requires Inv(s, 0) && s.phase.Waiting? && s.pending && s.at == 1 && s.history == History(FOLDER, [Append(A), Append(B)])
    requires s.loop.batches == [[Id(1, 2), Id(1, 1)]]
    ensures var steps := [Take, Select, Fetch(LAST), Finish];
            Runs(s, steps) && AtRest(After(s, steps)) && After(s, steps).loop.batches == [[Id(1, 2), Id(1, 1)], [Id(1, 2)]]
  {
    Folders();
    SecondReported(s.history);
    AgainRuns(s, LAST, 0);
  }
}
