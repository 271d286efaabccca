/** A client replica fed by delta pages while the mailbox keeps changing, also between the
    SELECT that fixes the next token and the FETCH that reads the data. */
module Replica {
  import opened Wrappers
  import opened Decimal
  import opened Mailbox
  import opened MessageIds
  import opened Delta

  type Replica = map<Opaque, Mail>

  function Upsert(r: Replica, msgs: seq<Message>): Replica {
    if msgs == [] then r else Upsert(r, msgs[..|msgs| - 1])[msgs[|msgs| - 1].id := msgs[|msgs| - 1].mail]
  }

  function ApplyPage(r: Replica, page: Page): Replica {
    Upsert(r, page.changed) - (set id | id in page.removed)
  }

  /** One sync: what the server does before SELECT and between SELECT and FETCH, whether it lets
      the client sync at all (the capability, then the SELECT), and what the FETCH answers (None
      when it fails). */
  datatype Round = Round(before: seq<Change>, during: seq<Change>, qresync: bool, selects: bool, fetched: Option<FetchData>)

  datatype Session = Session(mb: Mailbox, replica: Replica, token: Option<Opaque>)

  function AtSelect(s: Session, r: Round): Mailbox { ApplyAll(s.mb, r.before) }

  function AtFetch(s: Session, r: Round): Mailbox { ApplyAll(AtSelect(s, r), r.during) }

  function Selected(s: Session, r: Round): Option<SelectData> { if r.selects then Some(Select(AtSelect(s, r))) else None }

  /** A sync that fails leaves the replica and its token. */
  function Sync(name: string, s: Session, r: Round): Session {
    match Delta.Outcome(Some(Base64Url(name)), s.token, r.qresync, Selected(s, r), r.fetched)
    case Err(_) => s.(mb := AtFetch(s, r))
    case Ok(page) => Session(AtFetch(s, r), ApplyPage(s.replica, page), Some(page.next))
  }

  /** The server keeps its word: no folder is recreated under an open selection, and a FETCH
      that succeeds answers what was asked. */
  ghost predicate Honest(s: Session, r: Round) {
    var sel, now := AtSelect(s, r), AtFetch(s, r);
    && now.uidValidity == sel.uidValidity
    && (r.fetched.Some? ==>
          match DecodeOptional(s.token)
          case Err(_) => true
          case Ok(tok) =>
            if IsFull(tok, Select(sel)) then AnswersFull(sel, now, r.fetched.value)
            else AnswersSince(now, tok.value.modSeq, r.fetched.value))
  }

  ghost predicate Agrees(name: string, mb: Mailbox, replica: Replica, uid: nat) {
    var id := MessageId(name, mb.uidValidity, uid);
    && (id in replica <==> uid in mb.live)
    && (uid in mb.live ==> replica[id] == mb.live[uid].mail)
  }

  /** The invariant: what did not change after the token is replicated, and nothing of a
      later incarnation of the folder is in the replica yet. */
  ghost predicate Synced(name: string, s: Session) {
    && Valid(s.mb)
    && match s.token
       case None => s.replica == map[]
       case Some(text) =>
         match DecodeDeltaToken(text)
         case Err(_) => false
         case Ok(tok) =>
           && 1 <= tok.modSeq && tok.uidValidity <= s.mb.uidValidity
           && (forall e, u :: tok.uidValidity < e ==> MessageId(name, e, u) !in s.replica)
           && (tok.uidValidity == s.mb.uidValidity ==>
                 && tok.modSeq <= s.mb.highest
                 && forall u :: LastMod(s.mb, u) <= tok.modSeq ==> Agrees(name, s.mb, s.replica, u))
  }

  lemma {:induction false} UpsertAt(r: Replica, msgs: seq<Message>, id: Opaque)
    ensures (forall i :: 0 <= i < |msgs| ==> msgs[i].id != id) ==>
              (id in Upsert(r, msgs) <==> id in r) && (id in r ==> Upsert(r, msgs)[id] == r[id])
    ensures (exists i :: 0 <= i < |msgs| && msgs[i].id == id) ==>
              exists i :: 0 <= i < |msgs| && msgs[i].id == id && id in Upsert(r, msgs) && Upsert(r, msgs)[id] == msgs[i].mail
  {
    if msgs != [] {
      var init, last := msgs[..|msgs| - 1], msgs[|msgs| - 1];
      UpsertAt(r, init, id);
      if last.id != id && exists i :: 0 <= i < |msgs| && msgs[i].id == id {
        var i :| 0 <= i < |msgs| && msgs[i].id == id;
        assert init[i].id == id;
        var j :| 0 <= j < |init| && init[j].id == id && Upsert(r, init)[id] == init[j].mail;
        assert msgs[j].id == id && Upsert(r, msgs)[id] == msgs[j].mail;
      } else if last.id == id {
        assert msgs[|msgs| - 1].id == id && Upsert(r, msgs)[id] == msgs[|msgs| - 1].mail;
      }
    }
  }

  /** Upserting a fetched page sets exactly the fetched messages of this incarnation. */
  lemma UpsertFetched(name: string, v: nat, r: Replica, bufs: seq<Buffer>, e: nat, uid: nat)
    requires Ascending(bufs)
    ensures var r', id := Upsert(r, NewestFirst(name, v, bufs)), MessageId(name, e, uid);
            && (id in r' <==> id in r || (e == v && Reports(bufs, uid)))
            && (!(e == v && Reports(bufs, uid)) && id in r ==> r'[id] == r[id])
            && (e == v ==> forall i :: 0 <= i < |bufs| && bufs[i].uid == uid ==> id in r' && r'[id] == bufs[i].mail)
  {
    var msgs, id := NewestFirst(name, v, bufs), MessageId(name, e, uid);
    if bufs != [] {
      NewestFirstAt(name, v, bufs, 0);
    }
    forall i | 0 <= i < |bufs|
      ensures msgs[i] == MessageOf(name, v, bufs[|bufs| - 1 - i])
      ensures msgs[i].id == id <==> e == v && bufs[|bufs| - 1 - i].uid == uid
    {
      NewestFirstAt(name, v, bufs, i);
      if msgs[i].id == id {
        MessageIdInjective(Location(name, v, bufs[|bufs| - 1 - i].uid), Location(name, e, uid));
      }
    }
    UpsertAt(r, msgs, id);
    if e == v && Reports(bufs, uid) {
      var i :| 0 <= i < |bufs| && bufs[i].uid == uid;
      assert msgs[|bufs| - 1 - i].id == id;
      forall k | 0 <= k < |bufs| && bufs[k].uid == uid ensures k == i {
      }
    }
  }

  lemma {:induction false} NumsCover(ranges: seq<Range>)
    requires forall i :: 0 <= i < |ranges| ==> 1 <= ranges[i].start <= ranges[i].stop
    ensures Nums(ranges).Some? && forall u: nat :: u in Nums(ranges).value <==> Covers(ranges, u)
  {
    if ranges != [] {
      NumsCover(ranges[1..]);
      var rest := Nums(ranges[1..]).value;
      forall u: nat ensures u in Span(ranges[0]) + rest <==> Covers(ranges, u) {
        if u in Span(ranges[0]) {
          assert ranges[0].start <= u <= ranges[0].stop;
        }
        if ranges[0].start <= u <= ranges[0].stop {
          assert Span(ranges[0])[u - ranges[0].start] == u;
        }
        if Covers(ranges[1..], u) {
          var i :| 0 <= i < |ranges[1..]| && ranges[1..][i].start <= u <= ranges[1..][i].stop;
          assert ranges[i + 1].start <= u <= ranges[i + 1].stop;
        }
        if Covers(ranges, u) {
          var i :| 0 <= i < |ranges| && ranges[i].start <= u <= ranges[i].stop;
          if i > 0 {
            assert ranges[1..][i - 1] == ranges[i];
          }
        }
      }
    }
  }

  /** The tombstones of an answered FETCH name exactly the UIDs reported vanished. */
  lemma TombstonesAt(name: string, v: nat, ranges: seq<Range>, e: nat, uid: nat)
    requires forall i :: 0 <= i < |ranges| ==> 1 <= ranges[i].start <= ranges[i].stop
    ensures MessageId(name, e, uid) in Tombstones(name, v, ranges) <==> e == v && Covers(ranges, uid)
  {
    NumsCover(ranges);
    var uids, t := Nums(ranges).value, Tombstones(name, v, ranges);
    if MessageId(name, e, uid) in t {
      var i :| 0 <= i < |t| && t[i] == MessageId(name, e, uid);
      MessageIdInjective(Location(name, v, uids[i]), Location(name, e, uid));
    }
    if e == v && Covers(ranges, uid) {
      var i :| 0 <= i < |uids| && uids[i] == uid;
      assert t[i] == MessageId(name, e, uid);
    }
  }

  /** An incremental page from token (v, since), read at now, for a replica that agreed with
      the mailbox on everything not changed after since. */
  lemma IncrementalPage(name: string, now: Mailbox, replica: Replica, since: nat, data: FetchData, uid: nat)
    requires Valid(now) && AnswersSince(now, since, data)
    requires since > 0
    requires LastMod(now, uid) <= since ==> Agrees(name, now, replica, uid)
    ensures Agrees(name, now, ApplyPage(replica, Page(NewestFirst(name, now.uidValidity, data.bufs),
                                Tombstones(name, now.uidValidity, data.vanished), EncodeDeltaToken(0, 0))), uid)
  {
    UpsertFetched(name, now.uidValidity, replica, data.bufs, now.uidValidity, uid);
    TombstonesAt(name, now.uidValidity, data.vanished, now.uidValidity, uid);
    if uid in now.live && now.live[uid].modSeq > since {
      assert Reports(data.bufs, uid);
      var i :| 0 <= i < |data.bufs| && data.bufs[i].uid == uid;
    }
  }

  /** A full page onto a replica with nothing of this incarnation, for a UID not touched
      between SELECT and FETCH. */
  lemma FullPage(name: string, sel: Mailbox, now: Mailbox, replica: Replica, data: FetchData, uid: nat)
    requires Valid(now) && AnswersFull(sel, now, data) && now.uidValidity == sel.uidValidity
    requires MessageId(name, now.uidValidity, uid) !in replica
    requires uid in sel.live <==> uid in now.live
    ensures Agrees(name, now, Upsert(replica, NewestFirst(name, now.uidValidity, data.bufs)), uid)
  {
    UpsertFetched(name, now.uidValidity, replica, data.bufs, now.uidValidity, uid);
    if Reports(data.bufs, uid) {
      var i :| 0 <= i < |data.bufs| && data.bufs[i].uid == uid;
      assert data.bufs[i].uid in sel.live;
    }
  }

  /** Pages only ever hold ids of the selected incarnation. */
  lemma PageKeepsEpochs(name: string, tok: Option<DeltaToken>, sel: SelectData, data: FetchData, replica: Replica, e: nat, u: nat)
    requires Ascending(data.bufs)
    requires e != sel.uidValidity
    ensures MessageId(name, e, u) in ApplyPage(replica, PageOf(name, tok, sel, data)) ==> MessageId(name, e, u) in replica
  {
    UpsertFetched(name, sel.uidValidity, replica, data.bufs, e, u);
  }

  lemma SelectEmpty(mb: Mailbox)
    ensures Select(mb).numMessages == 0 <==> mb.live == map[]
  {
    if |mb.live| == 0 {
      assert mb.live == map[];
    }
  }

  /** What a sync that ends in an error leaves: the server moved on, the replica did not. */
  lemma MovedOn(name: string, s: Session, r: Round)
    requires Synced(name, s) && Honest(s, r)
    ensures Synced(name, s.(mb := AtFetch(s, r)))
  {
    UntouchedSince(s.mb, r.before);
    UntouchedSince(AtSelect(s, r), r.during);
  }

  /** The FETCH data behind a page; nothing is fetched from a folder found empty. */
  ghost function Fetched(s: Session, r: Round): FetchData {
    if r.fetched.Some? then r.fetched.value else FetchData([], [])
  }

  /** Before an incremental page is applied, the replica agrees with the server's present
      state on everything unchanged since the token. */
  lemma StillAgrees(name: string, s: Session, r: Round, tok: DeltaToken, uid: nat)
    requires Synced(name, s) && Honest(s, r) && DecodeOptional(s.token) == Ok(Some(tok))
    requires tok.uidValidity == AtSelect(s, r).uidValidity
    ensures tok.modSeq > 0
    ensures LastMod(AtFetch(s, r), uid) <= tok.modSeq ==> Agrees(name, AtFetch(s, r), s.replica, uid)
  {
    UntouchedSince(s.mb, r.before);
    UntouchedSince(AtSelect(s, r), r.during);
  }

  /** Before a full page is applied, the replica holds nothing of the folder's incarnation. */
  lemma NothingYet(name: string, s: Session, r: Round, tok: Option<DeltaToken>, uid: nat)
    requires Synced(name, s) && Honest(s, r) && DecodeOptional(s.token) == Ok(tok)
    requires IsFull(tok, Select(AtSelect(s, r)))
    requires LastMod(AtFetch(s, r), uid) <= AtSelect(s, r).highest
    ensures MessageId(name, AtSelect(s, r).uidValidity, uid) !in s.replica
    ensures uid in AtSelect(s, r).live <==> uid in AtFetch(s, r).live
  {
    UntouchedSince(s.mb, r.before);
    UntouchedSince(AtSelect(s, r), r.during);
  }

  /** A page without CHANGEDSINCE applied to a replica with nothing of this incarnation; of an
      empty folder nothing is fetched. */
  lemma WholePage(name: string, tok: Option<DeltaToken>, sel: Mailbox, now: Mailbox, replica: Replica, data: FetchData, uid: nat)
    requires Valid(now) && now.uidValidity == sel.uidValidity && IsFull(tok, Select(sel))
    requires sel.live != map[] ==> AnswersFull(sel, now, data)
    requires MessageId(name, now.uidValidity, uid) !in replica
    requires uid in sel.live <==> uid in now.live
    ensures Agrees(name, now, ApplyPage(replica, PageOf(name, tok, Select(sel), data)), uid)
  {
    var page := PageOf(name, tok, Select(sel), data);
    SelectEmpty(sel);
    assert ApplyPage(replica, page) == Upsert(replica, page.changed);
    if sel.live != map[] {
      FullPage(name, sel, now, replica, data, uid);
    }
  }

  lemma PageSyncedAt(name: string, s: Session, r: Round, tok: Option<DeltaToken>, uid: nat)
    requires Synced(name, s) && Honest(s, r) && DecodeOptional(s.token) == Ok(tok)
    requires r.fetched.Some? || (IsFull(tok, Select(AtSelect(s, r))) && AtSelect(s, r).live == map[])
    requires LastMod(AtFetch(s, r), uid) <= AtSelect(s, r).highest
    ensures Agrees(name, AtFetch(s, r), ApplyPage(s.replica, PageOf(name, tok, Select(AtSelect(s, r)), Fetched(s, r))), uid)
  {
    var sel, now, data := AtSelect(s, r), AtFetch(s, r), Fetched(s, r);
    assert Valid(sel) && Valid(now) by {
      UntouchedSince(s.mb, r.before);
      UntouchedSince(sel, r.during);
    }
    if IsFull(tok, Select(sel)) {
      NothingYet(name, s, r, tok, uid);
      WholePage(name, tok, sel, now, s.replica, data, uid);
    } else {
      StillAgrees(name, s, r, tok.value, uid);
      IncrementalPage(name, now, s.replica, tok.value.modSeq, data, uid);
    }
  }

  /** One sync keeps the invariant, whatever the server did meanwhile. */
  lemma SyncKeepsSynced(name: string, s: Session, r: Round)
    requires Synced(name, s) && Honest(s, r)
    ensures Synced(name, Sync(name, s, r))
  {
    var sel, now := AtSelect(s, r), AtFetch(s, r);
    MovedOn(name, s, r);
    match Outcome(Some(Base64Url(name)), s.token, r.qresync, Selected(s, r), r.fetched)
    case Err(_) =>
    case Ok(page) =>
      var tok := DecodeOptional(s.token).value;
      SelectEmpty(sel);
      var data := if IsFull(tok, Select(sel)) && Select(sel).numMessages == 0 then FetchData([], []) else r.fetched.value;
      assert page == PageOf(name, tok, Select(sel), data) == PageOf(name, tok, Select(sel), Fetched(s, r));
      PageKept(name, s, r, tok, data);
      forall u | LastMod(now, u) <= sel.highest ensures Agrees(name, now, ApplyPage(s.replica, page), u) {
        PageSyncedAt(name, s, r, tok, u);
      }
  }

  lemma PageKept(name: string, s: Session, r: Round, tok: Option<DeltaToken>, data: FetchData)
    requires Synced(name, s) && Honest(s, r) && DecodeOptional(s.token) == Ok(tok) && Ascending(data.bufs)
    ensures var sel := AtSelect(s, r);
            && DecodeDeltaToken(PageOf(name, tok, Select(sel), data).next) == Ok(DeltaToken(sel.uidValidity, sel.highest))
            && 1 <= sel.highest && (AtFetch(s, r).uidValidity == sel.uidValidity ==> sel.highest <= AtFetch(s, r).highest)
            && forall e, u :: sel.uidValidity < e ==> MessageId(name, e, u) !in ApplyPage(s.replica, PageOf(name, tok, Select(sel), data))
  {
    var sel := AtSelect(s, r);
    UntouchedSince(s.mb, r.before);
    UntouchedSince(sel, r.during);
    DeltaTokenRoundTrip(sel.uidValidity, sel.highest);
    forall e: nat, u: nat | sel.uidValidity < e
      ensures MessageId(name, e, u) !in ApplyPage(s.replica, PageOf(name, tok, Select(sel), data))
    {
      PageKeepsEpochs(name, tok, Select(sel), data, s.replica, e, u);
    }
  }

  ghost predicate HonestRun(name: string, s: Session, rounds: seq<Round>)
    decreases rounds
  {
    rounds == [] || (Honest(s, rounds[0]) && HonestRun(name, Sync(name, s, rounds[0]), rounds[1..]))
  }

  function Run(name: string, s: Session, rounds: seq<Round>): Session
    decreases rounds
  {
    if rounds == [] then s else Run(name, Sync(name, s, rounds[0]), rounds[1..])
  }

  /** Over any run of syncs the replica holds, for the folder's present incarnation, the
      exact state of every message not changed after the token it holds. */
  lemma {:induction false} RunKeepsSynced(name: string, s: Session, rounds: seq<Round>)
    requires Synced(name, s) && HonestRun(name, s, rounds)
    ensures Synced(name, Run(name, s, rounds))
    decreases rounds
  {
    if rounds != [] {
      SyncKeepsSynced(name, s, rounds[0]);
      RunKeepsSynced(name, Sync(name, s, rounds[0]), rounds[1..]);
    }
  }

  ghost predicate Succeeds(name: string, s: Session, r: Round) {
    Outcome(Some(Base64Url(name)), s.token, r.qresync, Selected(s, r), r.fetched).Ok?
  }

  /** After any run, one successful sync with no change between its SELECT and its FETCH makes
      the replica equal to the folder's present incarnation; ids of other incarnations stay
      exactly as they were, no tombstone ever names them. */
  lemma QuietSyncConverges(name: string, s0: Session, rounds: seq<Round>, last: Round)
    requires Synced(name, s0) && HonestRun(name, s0, rounds)
    requires Honest(Run(name, s0, rounds), last) && last.during == []
    requires Succeeds(name, Run(name, s0, rounds), last)
    ensures var s := Run(name, s0, rounds); var s' := Sync(name, s, last);
            && (forall u :: Agrees(name, s'.mb, s'.replica, u))
            && (forall e, u :: e != s'.mb.uidValidity ==>
                  (MessageId(name, e, u) in s'.replica <==> MessageId(name, e, u) in s.replica))
  {
    RunKeepsSynced(name, s0, rounds);
    var s := Run(name, s0, rounds);
    var s' := Sync(name, s, last);
    SyncKeepsSynced(name, s, last);
    UntouchedSince(s.mb, last.before);
    var sel := AtSelect(s, last);
    DeltaTokenRoundTrip(sel.uidValidity, sel.highest);
    forall u ensures Agrees(name, s'.mb, s'.replica, u) {
      assert LastMod(s'.mb, u) <= sel.highest;
    }
    var tok := DecodeOptional(s.token).value;
    SelectEmpty(sel);
    var data := if IsFull(tok, Select(sel)) && Select(sel).numMessages == 0 then FetchData([], []) else last.fetched.value;
    forall e: nat, u: nat | e != s'.mb.uidValidity
      ensures MessageId(name, e, u) in s'.replica <==> MessageId(name, e, u) in s.replica
    {
      UpsertFetched(name, sel.uidValidity, s.replica, data.bufs, e, u);
      if !IsFull(tok, Select(sel)) {
        TombstonesAt(name, sel.uidValidity, data.vanished, e, u);
      }
    }
  }

  lemma ZeroTokenAt(name: string, now: Mailbox, replica: Replica, data: FetchData, u: nat)
    requires Valid(now) && AnswersSince(now, 0, data)
    requires LastMod(now, u) == 0 ==> Agrees(name, now, replica, u)
    ensures Agrees(name, now, ApplyPage(replica, PageOf(name, Some(DeltaToken(now.uidValidity, 0)), Select(now), data)), u) <==>
            (u in now.gone && MessageId(name, now.uidValidity, u) in replica ==> Covers(data.vanished, u))
  {
    ZeroPageAt(name, now, replica, data, u);
    if u in now.live {
      assert Reports(data.bufs, u);
      var i :| 0 <= i < |data.bufs| && data.bufs[i].uid == u;
    }
  }

  lemma ZeroPageAt(name: string, now: Mailbox, replica: Replica, data: FetchData, u: nat)
    requires Valid(now) && AnswersSince(now, 0, data)
    ensures var id := MessageId(name, now.uidValidity, u);
            var after := ApplyPage(replica, PageOf(name, Some(DeltaToken(now.uidValidity, 0)), Select(now), data));
            && (id in after <==> (id in replica || Reports(data.bufs, u)) && !Covers(data.vanished, u))
            && (id in after && !Reports(data.bufs, u) ==> after[id] == replica[id])
            && (id in after ==> forall i :: 0 <= i < |data.bufs| && data.bufs[i].uid == u ==> after[id] == data.bufs[i].mail)
  {
    UpsertFetched(name, now.uidValidity, replica, data.bufs, now.uidValidity, u);
    TombstonesAt(name, now.uidValidity, data.vanished, now.uidValidity, u);
  }

  ghost predicate NothingMissed(name: string, now: Mailbox, replica: Replica, vanished: seq<Range>) {
    forall u :: u in now.gone && MessageId(name, now.uidValidity, u) in replica ==> Covers(vanished, u)
  }

  /** A token with mod-sequence zero (a server without persistent mod-sequences) sends no
      CHANGEDSINCE and no VANISHED. The page it yields converges exactly when the replica
      holds no expunged message the server did not happen to report. */
  lemma ZeroTokenConverges(name: string, now: Mailbox, replica: Replica, data: FetchData)
    requires Valid(now) && AnswersSince(now, 0, data)
    requires forall u :: LastMod(now, u) == 0 ==> Agrees(name, now, replica, u)
    ensures (forall u :: Agrees(name, now, ApplyPage(replica, PageOf(name, Some(DeltaToken(now.uidValidity, 0)), Select(now), data)), u))
            <==> NothingMissed(name, now, replica, data.vanished)
  {
    var after := ApplyPage(replica, PageOf(name, Some(DeltaToken(now.uidValidity, 0)), Select(now), data));
    if NothingMissed(name, now, replica, data.vanished) {
      forall u: nat ensures Agrees(name, now, after, u) {
        ZeroTokenAt(name, now, replica, data, u);
      }
    } else {
      var u: nat :| u in now.gone && MessageId(name, now.uidValidity, u) in replica && !Covers(data.vanished, u);
      ZeroTokenAt(name, now, replica, data, u);
      assert !Agrees(name, now, after, u);
    }
  }

  /** Whatever the folder, the replica and the server's honest answer: a page from this token brings
      a replica that agreed on everything unchanged since the token into agreement. */
  ghost predicate PageConverges(name: string, tok: DeltaToken) {
    forall now: Mailbox, replica: Replica, data: FetchData ::
      && Valid(now) && now.uidValidity == tok.uidValidity && tok.modSeq <= now.highest
      && AnswersSince(now, tok.modSeq, data)
      && (forall u :: LastMod(now, u) <= tok.modSeq ==> Agrees(name, now, replica, u))
      ==> forall u :: Agrees(name, now, ApplyPage(replica, PageOf(name, Some(tok), Select(now), data)), u)
  }

  /** The input: message 1 expunged, the replica still holding it, and a server that has nothing to
      report. */
  lemma ZeroTokenKeepsExpunged(name: string, v: nat, mail: Mail)
    requires v <= MAX_UINT32
    ensures var now := Mailbox(v, 2, 2, map[], map[1 := 2]);
            var replica: Replica := map[MessageId(name, v, 1) := mail];
            var page := PageOf(name, Some(DeltaToken(v, 0)), Select(now), FetchData([], []));
            && Valid(now) && AnswersSince(now, 0, FetchData([], []))
            && (forall u :: LastMod(now, u) == 0 ==> Agrees(name, now, replica, u))
            && !Agrees(name, now, ApplyPage(replica, page), 1)
  {
    var now := Mailbox(v, 2, 2, map[], map[1 := 2]);
    var replica: Replica := map[MessageId(name, v, 1) := mail];
    forall u: nat | LastMod(now, u) == 0 ensures Agrees(name, now, replica, u) {
      if MessageId(name, v, u) in replica {
        MessageIdInjective(Location(name, v, u), Location(name, v, 1));
      }
    }
    assert 1 in now.gone && MessageId(name, v, 1) in replica && !Covers([], 1);
    ZeroTokenAt(name, now, replica, FetchData([], []), 1);
  }

  /** A token's pages converge exactly when its mod-sequence is not zero, which is what decides
      whether CHANGEDSINCE and VANISHED are sent. */
  lemma TokenConvergesIff(name: string, tok: DeltaToken)
    requires tok.uidValidity <= MAX_UINT32
    ensures PageConverges(name, tok) <==> tok.modSeq != 0
  {
    if tok.modSeq == 0 {
      ZeroTokenKeepsExpunged(name, tok.uidValidity, Mail("", {}));
    } else {
      forall now: Mailbox, replica: Replica, data: FetchData, u: nat |
        && Valid(now) && now.uidValidity == tok.uidValidity && tok.modSeq <= now.highest
        && AnswersSince(now, tok.modSeq, data)
        && (forall x :: LastMod(now, x) <= tok.modSeq ==> Agrees(name, now, replica, x))
        ensures Agrees(name, now, ApplyPage(replica, PageOf(name, Some(tok), Select(now), data)), u)
      {
        IncrementalPage(name, now, replica, tok.modSeq, data, u);
      }
    }
  }
}
