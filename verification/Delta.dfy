/** The server side of incremental mail sync: one mailbox of an IMAP server with
    mod-sequences (RFC 7162), what SELECT reports about it, and what a FETCH may answer. */
module Mailbox {
  import opened Decimal

  datatype Mail = Mail(subject: string, flags: set<string>)

  datatype Entry = Entry(mail: Mail, modSeq: nat)

  /** live holds the present messages, gone the mod-sequence of each expunge. */
  datatype Mailbox = Mailbox(uidValidity: nat, highest: nat, uidNext: nat, live: map<nat, Entry>, gone: map<nat, nat>)

  datatype Change = Append(mail: Mail) | Store(uid: nat, mail: Mail) | Expunge(uid: nat) | Recreate(uidValidity: nat)

  ghost predicate Valid(mb: Mailbox) {
    && 1 <= mb.highest <= MAX_UINT64 && 1 <= mb.uidNext && mb.uidValidity <= MAX_UINT32
    && mb.live.Keys !! mb.gone.Keys
    && (forall u :: u in mb.live ==> 1 <= u < mb.uidNext && 1 <= mb.live[u].modSeq <= mb.highest)
    && (forall u :: u in mb.gone ==> 1 <= u < mb.uidNext && 1 <= mb.gone[u] <= mb.highest)
  }

  /** What one client action does. Every change takes the next mod-sequence; deleting and
      recreating the folder needs a larger UIDVALIDITY and starts over. */
  function Apply(mb: Mailbox, c: Change): Mailbox {
    var next := mb.highest + 1;
    match c
    case Append(mail) =>
      if next > MAX_UINT64 then mb
      else mb.(highest := next, uidNext := mb.uidNext + 1, live := mb.live[mb.uidNext := Entry(mail, next)])
    case Store(uid, mail) =>
      if next > MAX_UINT64 || uid !in mb.live then mb
      else mb.(highest := next, live := mb.live[uid := Entry(mail, next)])
    case Expunge(uid) =>
      if next > MAX_UINT64 || uid !in mb.live then mb
      else mb.(highest := next, live := mb.live - {uid}, gone := mb.gone[uid := next])
    case Recreate(v) =>
      if mb.uidValidity < v <= MAX_UINT32 then Mailbox(v, 1, 1, map[], map[]) else mb
  }

  function ApplyAll(mb: Mailbox, cs: seq<Change>): Mailbox
    decreases cs
  {
    if cs == [] then mb else ApplyAll(Apply(mb, cs[0]), cs[1..])
  }

  ghost function LastMod(mb: Mailbox, uid: nat): nat {
    if uid in mb.live then mb.live[uid].modSeq else if uid in mb.gone then mb.gone[uid] else 0
  }

  datatype SelectData = SelectData(uidValidity: nat, highestModSeq: nat, numMessages: nat)

  function Select(mb: Mailbox): SelectData { SelectData(mb.uidValidity, mb.highest, |mb.live|) }

  /** A run of UIDs as a UID set carries it; 0 stands for the open end "*". */
  datatype Range = Range(start: nat, stop: nat)

  datatype Buffer = Buffer(uid: nat, mail: Mail)

  datatype FetchData = FetchData(bufs: seq<Buffer>, vanished: seq<Range>)

  predicate Ascending(bufs: seq<Buffer>) { forall i, j :: 0 <= i < j < |bufs| ==> bufs[i].uid < bufs[j].uid }

  predicate Covers(ranges: seq<Range>, uid: nat) {
    exists i :: 0 <= i < |ranges| && ranges[i].start <= uid <= ranges[i].stop
  }

  predicate Reports(bufs: seq<Buffer>, uid: nat) { exists i :: 0 <= i < |bufs| && bufs[i].uid == uid }

  /** FETCH of sequence numbers 1 to N given out at SELECT: every message of the selected
      view that is still there, with its present data. One expunged since may or may not
      be answered. */
  ghost predicate AnswersFull(selected: Mailbox, now: Mailbox, data: FetchData) {
    && Ascending(data.bufs)
    && (forall i :: 0 <= i < |data.bufs| ==> data.bufs[i].uid in selected.live)
    && (forall u :: u in selected.live && u in now.live ==> Reports(data.bufs, u))
    && (forall i :: 0 <= i < |data.bufs| && data.bufs[i].uid in now.live ==>
          data.bufs[i].mail == now.live[data.bufs[i].uid].mail)
  }

  /** UID FETCH 1:* CHANGEDSINCE since VANISHED (section 3.2.6 of RFC 7162): exactly the
      messages changed after since, and at least the UIDs expunged after it. A zero since
      sends neither modifier, and then nothing has to be reported as vanished. */
  ghost predicate AnswersSince(now: Mailbox, since: nat, data: FetchData) {
    && Ascending(data.bufs)
    && (forall u :: Reports(data.bufs, u) <==> u in now.live && now.live[u].modSeq > since)
    && (forall i :: 0 <= i < |data.bufs| && data.bufs[i].uid in now.live ==>
          data.bufs[i].mail == now.live[data.bufs[i].uid].mail)
    && (forall i :: 0 <= i < |data.vanished| ==> 1 <= data.vanished[i].start <= data.vanished[i].stop)
    && (since > 0 ==> forall u :: u in now.gone && now.gone[u] > since ==> Covers(data.vanished, u))
    && (forall u :: Covers(data.vanished, u) ==> u !in now.live)
  }

  lemma ApplyKeepsValid(mb: Mailbox, c: Change)
    requires Valid(mb)
    ensures Valid(Apply(mb, c))
    ensures mb.uidValidity <= Apply(mb, c).uidValidity
    ensures Apply(mb, c).uidValidity == mb.uidValidity ==>
              && mb.highest <= Apply(mb, c).highest
              && forall u :: LastMod(Apply(mb, c), u) <= mb.highest ==>
                   && LastMod(mb, u) == LastMod(Apply(mb, c), u)
                   && (u in mb.live <==> u in Apply(mb, c).live)
                   && (u in mb.live ==> mb.live[u] == Apply(mb, c).live[u])
  {
  }

  /** A message whose last change is not after mod-sequence mb.highest is as it was in mb. */
  lemma {:induction false} UntouchedSince(mb: Mailbox, cs: seq<Change>)
    requires Valid(mb)
    ensures Valid(ApplyAll(mb, cs))
    ensures mb.uidValidity <= ApplyAll(mb, cs).uidValidity
    ensures ApplyAll(mb, cs).uidValidity == mb.uidValidity ==>
              && mb.highest <= ApplyAll(mb, cs).highest
              && forall u :: LastMod(ApplyAll(mb, cs), u) <= mb.highest ==>
                   && LastMod(mb, u) == LastMod(ApplyAll(mb, cs), u)
                   && (u in mb.live <==> u in ApplyAll(mb, cs).live)
                   && (u in mb.live ==> mb.live[u] == ApplyAll(mb, cs).live[u])
    decreases cs
  {
    if cs != [] {
      ApplyKeepsValid(mb, cs[0]);
      UntouchedSince(Apply(mb, cs[0]), cs[1..]);
    }
  }
}

/** internal/mail/imap/delta.go: pages of changes and removals behind an opaque token, and
    the replica a client builds from them. */
module Delta {
  import opened Wrappers
  import opened Mailbox
  import opened MessageIds

  datatype Message = Message(id: Opaque, mail: Mail)

  datatype Page = Page(changed: seq<Message>, removed: seq<Opaque>, next: Opaque)

  datatype DeltaError = BadFolderId | BadToken(cause: IdError) | Unsupported | SelectFailed | FetchFailed

  function MessageOf(mailbox: string, uidValidity: nat, b: Buffer): Message {
    Message(MessageId(mailbox, uidValidity, b.uid), b.mail)
  }

  /** The fetched buffers as messages, newest first. */
  function NewestFirst(mailbox: string, uidValidity: nat, bufs: seq<Buffer>): seq<Message> {
    if bufs == [] then []
    else NewestFirst(mailbox, uidValidity, bufs[1..]) + [MessageOf(mailbox, uidValidity, bufs[0])]
  }

  /** The UIDs of a UID set in order, or None when it has an open end. */
  function Nums(ranges: seq<Range>): Option<seq<nat>> {
    if ranges == [] then Some([])
    else if ranges[0].start == 0 || ranges[0].stop == 0 then None
    else match Nums(ranges[1..])
      case None => None
      case Some(rest) => Some(Span(ranges[0]) + rest)
  }

  function Span(r: Range): seq<nat> {
    seq(if r.start <= r.stop then r.stop - r.start + 1 else 0, (i: nat) => r.start + i)
  }

  function Tombstones(mailbox: string, uidValidity: nat, ranges: seq<Range>): seq<Opaque> {
    match Nums(ranges)
    case None => []
    case Some(uids) => seq(|uids|, i requires 0 <= i < |uids| => MessageId(mailbox, uidValidity, uids[i]))
  }

  function MailboxOf(folderId: Option<Opaque>): Option<string> {
    match folderId
    case None => Some("INBOX")
    case Some(Base64Url(name)) => Some(name)
    case Some(Malformed(_)) => None
  }

  predicate IsFull(token: Option<DeltaToken>, sel: SelectData) {
    token.None? || token.value.uidValidity != sel.uidValidity
  }

  /** The page of one successful sync: what Delta returns, given the decoded token, the
      SELECT data and the FETCH data. */
  function PageOf(mailbox: string, token: Option<DeltaToken>, sel: SelectData, data: FetchData): Page {
    var next := EncodeDeltaToken(sel.uidValidity, sel.highestModSeq);
    if IsFull(token, sel) then
      Page(if sel.numMessages == 0 then [] else NewestFirst(mailbox, sel.uidValidity, data.bufs), [], next)
    else
      Page(NewestFirst(mailbox, sel.uidValidity, data.bufs),
           Tombstones(mailbox, sel.uidValidity, data.vanished), next)
  }

  function DecodeOptional(token: Option<Opaque>): Result<Option<DeltaToken>, IdError> {
    match token
    case None => Ok(None)
    case Some(t) =>
      match DecodeDeltaToken(t)
      case Err(e) => Err(e)
      case Ok(d) => Ok(Some(d))
  }

  /** Every way a call can end. The checks that need no server come first. */
  function Outcome(folderId: Option<Opaque>, token: Option<Opaque>, qresync: bool,
                   selected: Option<SelectData>, fetched: Option<FetchData>): Result<Page, DeltaError>
  {
    match MailboxOf(folderId)
    case None => Err(BadFolderId)
    case Some(mailbox) =>
      match DecodeOptional(token)
      case Err(e) => Err(BadToken(e))
      case Ok(tok) =>
        if !qresync then Err(Unsupported)
        else if selected.None? then Err(SelectFailed)
        else if IsFull(tok, selected.value) && selected.value.numMessages == 0 then
          Ok(PageOf(mailbox, tok, selected.value, FetchData([], [])))
        else if fetched.None? then Err(FetchFailed)
        else Ok(PageOf(mailbox, tok, selected.value, fetched.value))
  }

  /** One connection. vanished collects the VANISHED responses the read loop hands over. */
  class Client {
    var vanished: seq<Range>

    constructor ()
      ensures vanished == []
    {
      vanished := [];
    }

    method OnVanished(uids: seq<Range>)
      modifies this
      ensures vanished == old(vanished) + uids
    {
      vanished := vanished + uids;
    }

    /** The FETCH round trip: VANISHED responses arrive while it runs. */
    method FetchDelta(mailbox: string, uidValidity: nat, empty: bool, fetched: Option<FetchData>)
      returns (msgs: Option<seq<Message>>)
      modifies this
      ensures empty ==> msgs == Some([]) && vanished == old(vanished)
      ensures !empty && fetched.None? ==> msgs == None && vanished == old(vanished)
      ensures !empty && fetched.Some? ==>
                && msgs == Some(NewestFirst(mailbox, uidValidity, fetched.value.bufs))
                && vanished == old(vanished) + fetched.value.vanished
    {
      if empty {
        return Some([]);
      }
      if fetched.None? {
        return None;
      }
      OnVanished(fetched.value.vanished);
      var bufs := fetched.value.bufs;
      var ascending: seq<Message> := [];
      for i := 0 to |bufs|
        invariant |ascending| == i
        invariant forall k :: 0 <= k < i ==> ascending[k] == MessageOf(mailbox, uidValidity, bufs[k])
      {
        ascending := ascending + [MessageOf(mailbox, uidValidity, bufs[i])];
      }
      var reversed := seq(|ascending|, i requires 0 <= i < |ascending| => ascending[|ascending| - 1 - i]);
      NewestFirstIsReversal(mailbox, uidValidity, bufs, reversed);
      return Some(reversed);
    }

    /** The result does not depend on what an earlier command left in vanished. */
    method Delta(folderId: Option<Opaque>, token: Option<Opaque>, qresync: bool,
                 selected: Option<SelectData>, fetched: Option<FetchData>)
      returns (r: Result<Page, DeltaError>)
      modifies this
      ensures r == Outcome(folderId, token, qresync, selected, fetched)
      ensures r.Ok? && r.value.removed != [] ==> vanished == []
    {
      var mailbox := "INBOX";
      if folderId.Some? {
        match folderId.value {
          case Malformed(_) => return Err(BadFolderId);
          case Base64Url(name) => mailbox := name;
        }
      }
      var tok: Option<DeltaToken> := None;
      if token.Some? {
        match DecodeDeltaToken(token.value) {
          case Err(e) => return Err(BadToken(e));
          case Ok(d) => tok := Some(d);
        }
      }
      if !qresync {
        return Err(Unsupported);
      }
      if selected.None? {
        return Err(SelectFailed);
      }
      var sel := selected.value;
      var next := EncodeDeltaToken(sel.uidValidity, sel.highestModSeq);
      if tok.None? || tok.value.uidValidity != sel.uidValidity {
        var all := FetchDelta(mailbox, sel.uidValidity, sel.numMessages == 0, fetched);
        if all.None? {
          return Err(FetchFailed);
        }
        return Ok(Page(all.value, [], next));
      }
      vanished := [];
      var changed := FetchDelta(mailbox, sel.uidValidity, false, fetched);
      if changed.None? {
        return Err(FetchFailed);
      }
      var collected := vanished;
      vanished := [];
      assert collected == fetched.value.vanished;
      var removed: seq<Opaque> := [];
      var nums := Nums(collected);
      if nums.Some? {
        var uids := nums.value;
        for i := 0 to |uids|
          invariant |removed| == i
          invariant forall k :: 0 <= k < i ==> removed[k] == MessageId(mailbox, sel.uidValidity, uids[k])
        {
          removed := removed + [MessageId(mailbox, sel.uidValidity, uids[i])];
        }
      }
      assert removed == Tombstones(mailbox, sel.uidValidity, collected);
      return Ok(Page(changed.value, removed, next));
    }
  }

  lemma {:induction false} NewestFirstAt(mailbox: string, uidValidity: nat, bufs: seq<Buffer>, i: nat)
    requires i < |bufs|
    ensures |NewestFirst(mailbox, uidValidity, bufs)| == |bufs|
    ensures NewestFirst(mailbox, uidValidity, bufs)[i] == MessageOf(mailbox, uidValidity, bufs[|bufs| - 1 - i])
  {
    if |bufs| > 1 {
      NewestFirstAt(mailbox, uidValidity, bufs[1..], if i < |bufs| - 1 then i else 0);
    }
  }

  lemma NewestFirstIsReversal(mailbox: string, uidValidity: nat, bufs: seq<Buffer>, msgs: seq<Message>)
    requires |msgs| == |bufs|
    requires forall i :: 0 <= i < |msgs| ==> msgs[i] == MessageOf(mailbox, uidValidity, bufs[|bufs| - 1 - i])
    ensures msgs == NewestFirst(mailbox, uidValidity, bufs)
  {
    var n := NewestFirst(mailbox, uidValidity, bufs);
    if bufs != [] {
      NewestFirstAt(mailbox, uidValidity, bufs, 0);
    }
    forall i | 0 <= i < |msgs| ensures msgs[i] == n[i] {
      NewestFirstAt(mailbox, uidValidity, bufs, i);
    }
  }

  /** A token of another incarnation is treated exactly as no token. */
  lemma ForeignTokenIsInitialSync(folderId: Option<Opaque>, t: Opaque, qresync: bool, sel: SelectData, fetched: Option<FetchData>)
    requires DecodeDeltaToken(t).Ok? && DecodeDeltaToken(t).value.uidValidity != sel.uidValidity
    ensures Outcome(folderId, Some(t), qresync, Some(sel), fetched) == Outcome(folderId, None, qresync, Some(sel), fetched)
  {
  }
}
