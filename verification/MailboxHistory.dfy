/** A mailbox over time: where its changes have brought it at each point, and what stays true
    between two points of one incarnation. */
module MailboxHistory {
  import opened Mailbox

  datatype History = History(base: Mailbox, log: seq<Change>)

  /** The mailbox after the first k changes. */
  function At(h: History, k: nat): Mailbox
    requires k <= |h.log|
  {
    ApplyAll(h.base, h.log[..k])
  }

  function Now(h: History): Mailbox { At(h, |h.log|) }

  function Epoch(h: History, k: nat): nat
    requires k <= |h.log|
  {
    At(h, k).uidValidity
  }

  lemma {:induction false} ApplyAllAppend(mb: Mailbox, a: seq<Change>, b: seq<Change>)
    ensures ApplyAll(mb, a + b) == ApplyAll(ApplyAll(mb, a), b)
    decreases a
  {
    if a == [] {
      assert a + b == b;
    } else {
      assert (a + b)[1..] == a[1..] + b;
      ApplyAllAppend(Apply(mb, a[0]), a[1..], b);
    }
  }

  lemma Extended(h: History, c: Change, k: nat)
    requires k <= |h.log|
    ensures At(h.(log := h.log + [c]), k) == At(h, k)
  {
    assert (h.log + [c])[..k] == h.log[..k];
  }

  /** From point i to a later point j: the UIDVALIDITY does not fall, and within one the highest
      mod-sequence does not, and what changed no later than i is as it was. */
  lemma Later(h: History, i: nat, j: nat)
    requires Valid(h.base) && i <= j <= |h.log|
    ensures Valid(At(h, i)) && Valid(At(h, j)) && Epoch(h, i) <= Epoch(h, j)
    ensures Epoch(h, i) == Epoch(h, j) ==>
              && At(h, i).highest <= At(h, j).highest
              && forall u :: LastMod(At(h, j), u) <= At(h, i).highest ==>
                   && LastMod(At(h, i), u) == LastMod(At(h, j), u)
                   && (u in At(h, i).live <==> u in At(h, j).live)
                   && (u in At(h, i).live ==> At(h, i).live[u] == At(h, j).live[u])
  {
    Reached(h, i, j);
    UntouchedSince(h.base, h.log[..i]);
    UntouchedSince(At(h, i), h.log[i..j]);
  }

  lemma Reached(h: History, i: nat, j: nat)
    requires i <= j <= |h.log|
    ensures At(h, j) == ApplyAll(At(h, i), h.log[i..j])
  {
    assert h.log[..j] == h.log[..i] + h.log[i..j];
    ApplyAllAppend(h.base, h.log[..i], h.log[i..j]);
  }

  lemma ChangeKeepsGone(mb: Mailbox, c: Change, u: nat)
    requires Valid(mb) && Apply(mb, c).uidValidity == mb.uidValidity
    ensures u in mb.gone ==> u in Apply(mb, c).gone
    ensures u in mb.live ==> u in Apply(mb, c).live || u in Apply(mb, c).gone
  {
  }

  /** Within one UIDVALIDITY an expunged UID does not come back. */
  lemma {:induction false} StaysGone(mb: Mailbox, cs: seq<Change>, u: nat)
    requires Valid(mb) && ApplyAll(mb, cs).uidValidity == mb.uidValidity
    ensures u in mb.gone ==> u in ApplyAll(mb, cs).gone
    ensures u in mb.live ==> u in ApplyAll(mb, cs).live || u in ApplyAll(mb, cs).gone
    decreases cs
  {
    if cs != [] {
      ApplyKeepsValid(mb, cs[0]);
      UntouchedSince(Apply(mb, cs[0]), cs[1..]);
      ChangeKeepsGone(mb, cs[0], u);
      StaysGone(Apply(mb, cs[0]), cs[1..], u);
    }
  }

  /** A message there at i and at k was there in between, and its mod-sequence does not fall. */
  lemma LiveBetween(h: History, i: nat, j: nat, k: nat, u: nat)
    requires Valid(h.base) && i <= j <= k <= |h.log| && Epoch(h, i) == Epoch(h, k)
    requires u in At(h, i).live && u in At(h, k).live
    ensures Epoch(h, j) == Epoch(h, i) && u in At(h, j).live
    ensures At(h, i).live[u].modSeq <= At(h, j).live[u].modSeq
  {
    Later(h, i, j);
    Later(h, j, k);
    Reached(h, i, j);
    Reached(h, j, k);
    StaysGone(At(h, i), h.log[i..j], u);
    StaysGone(At(h, j), h.log[j..k], u);
  }

  /** Expunges alone leave every remaining message as it was. */
  lemma {:induction false} OnlyExpunged(mb: Mailbox, cs: seq<Change>)
    requires forall c :: c in cs ==> c.Expunge?
    ensures ApplyAll(mb, cs).uidValidity == mb.uidValidity
    ensures forall u :: u in ApplyAll(mb, cs).live ==> u in mb.live && ApplyAll(mb, cs).live[u] == mb.live[u]
    decreases cs
  {
    if cs != [] {
      assert cs[0].Expunge?;
      OnlyExpunged(Apply(mb, cs[0]), cs[1..]);
    }
  }

  // ---- An answer for every FETCH ----

  function Buffers(now: Mailbox, picked: set<nat>, n: nat): seq<Buffer> {
    if n == 0 then []
    else Buffers(now, picked, n - 1) +
         (if n - 1 in picked && n - 1 in now.live then [Buffer(n - 1, now.live[n - 1].mail)] else [])
  }

  function Ranges(gone: set<nat>, n: nat): seq<Range> {
    if n == 0 then [] else Ranges(gone, n - 1) + (if n - 1 in gone then [Range(n - 1, n - 1)] else [])
  }

  lemma {:induction false} BuffersList(now: Mailbox, picked: set<nat>, n: nat)
    ensures Ascending(Buffers(now, picked, n))
    ensures forall b :: b in Buffers(now, picked, n) <==>
              b.uid < n && b.uid in picked && b.uid in now.live && b.mail == now.live[b.uid].mail
  {
    if n > 0 {
      BuffersList(now, picked, n - 1);
      var rest := Buffers(now, picked, n - 1);
      forall i | 0 <= i < |rest| ensures rest[i].uid < n - 1 {
        assert rest[i] in rest;
      }
    }
  }

  lemma {:induction false} RangesList(gone: set<nat>, n: nat)
    ensures forall r :: r in Ranges(gone, n) ==> r.start == r.stop < n && r.start in gone
    ensures forall u: nat :: u < n && u in gone ==> Range(u, u) in Ranges(gone, n)
  {
    if n > 0 {
      RangesList(gone, n - 1);
    }
  }

  function FullAnswer(sel: Mailbox, now: Mailbox): FetchData { FetchData(Buffers(now, sel.live.Keys, now.uidNext), []) }

  function ChangedSince(now: Mailbox, since: nat): set<nat> { set u | u in now.live && now.live[u].modSeq > since }

  function GoneSince(now: Mailbox, since: nat): set<nat> { set u | u in now.gone && now.gone[u] > since }

  function SinceAnswer(now: Mailbox, since: nat): FetchData {
    FetchData(Buffers(now, ChangedSince(now, since), now.uidNext), Ranges(GoneSince(now, since), now.uidNext))
  }

  lemma BuffersAnswer(now: Mailbox, picked: set<nat>)
    requires Valid(now)
    ensures var bufs := Buffers(now, picked, now.uidNext);
            && Ascending(bufs)
            && (forall u :: Reports(bufs, u) <==> u in picked && u in now.live)
            && (forall i :: 0 <= i < |bufs| ==>
                  bufs[i].uid in picked && bufs[i].uid in now.live && bufs[i].mail == now.live[bufs[i].uid].mail)
  {
    var bufs := Buffers(now, picked, now.uidNext);
    BuffersList(now, picked, now.uidNext);
    forall i | 0 <= i < |bufs|
      ensures bufs[i].uid in picked && bufs[i].uid in now.live && bufs[i].mail == now.live[bufs[i].uid].mail
    {
      assert bufs[i] in bufs;
    }
    forall u ensures Reports(bufs, u) <==> u in picked && u in now.live {
      if u in picked && u in now.live {
        BufferReports(bufs, Buffer(u, now.live[u].mail));
      }
    }
  }

  lemma BufferReports(bufs: seq<Buffer>, b: Buffer)
    requires b in bufs
    ensures Reports(bufs, b.uid)
  {
    var i :| 0 <= i < |bufs| && bufs[i] == b;
  }

  lemma RangesCover(gone: set<nat>, n: nat)
    requires forall u :: u in gone ==> 1 <= u < n
    ensures var rs := Ranges(gone, n);
            && (forall u :: Covers(rs, u) <==> u in gone)
            && (forall i :: 0 <= i < |rs| ==> 1 <= rs[i].start <= rs[i].stop)
  {
    var rs := Ranges(gone, n);
    RangesList(gone, n);
    forall i | 0 <= i < |rs| ensures 1 <= rs[i].start == rs[i].stop && rs[i].start in gone {
      assert rs[i] in rs;
    }
    forall u ensures Covers(rs, u) <==> u in gone {
      if u in gone {
        RangeCovers(rs, u);
      }
    }
  }

  lemma RangeCovers(rs: seq<Range>, u: nat)
    requires Range(u, u) in rs
    ensures Covers(rs, u)
  {
    var i :| 0 <= i < |rs| && rs[i] == Range(u, u);
  }

  lemma FullAnswered(sel: Mailbox, now: Mailbox)
    requires Valid(now)
    ensures AnswersFull(sel, now, FullAnswer(sel, now))
  {
    BuffersAnswer(now, sel.live.Keys);
  }

  lemma SinceAnswered(now: Mailbox, since: nat)
    requires Valid(now)
    ensures AnswersSince(now, since, SinceAnswer(now, since))
  {
    BuffersAnswer(now, ChangedSince(now, since));
    RangesCover(GoneSince(now, since), now.uidNext);
  }
}
