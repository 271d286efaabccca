/** Keeping track of things that are handed from place to place: every item is at exactly one
    position of exactly one place. */
module Custody {
  import opened Sequences

  function At<H, T>(held: map<H, seq<T>>, h: H): seq<T> { if h in held then held[h] else [] }

  ghost predicate ExactlyOnce<H(!new)>(held: map<H, seq<nat>>, all: set<nat>) {
    && (forall h :: NoDuplicates(At(held, h)))
    && (forall h, c :: c in At(held, h) ==> c in all)
    && (forall c :: c in all ==> exists h :: c in At(held, h))
    && (forall h, k, c :: c in At(held, h) && c in At(held, k) ==> h == k)
  }

  /** Handing items from one place to another keeps every item in exactly one place. */
  lemma Hand<H(!new)>(held: map<H, seq<nat>>, all: set<nat>, from: H, rest: seq<nat>, to: H, more: seq<nat>)
    requires ExactlyOnce(held, all) && from != to
    requires NoDuplicates(rest) && NoDuplicates(more)
    requires forall c :: c in rest ==> c !in more
    requires forall c :: c in At(held, from) || c in At(held, to) <==> c in rest || c in more
    ensures ExactlyOnce(held[from := rest][to := more], all)
  {
    var held' := held[from := rest][to := more];
    assert forall h :: At(held', h) == if h == to then more else if h == from then rest else At(held, h);
    forall c | c in all ensures exists h :: c in At(held', h) {
      var h :| c in At(held, h);
      if h == from || h == to {
        assert c in At(held', from) || c in At(held', to);
      } else {
        assert c in At(held', h);
      }
    }
  }

  /** A new item enters at one place. */
  lemma Enter<H(!new)>(held: map<H, seq<nat>>, all: set<nat>, h: H, c: nat)
    requires ExactlyOnce(held, all) && c !in all
    ensures ExactlyOnce(held[h := At(held, h) + [c]], all + {c})
  {
    var held' := held[h := At(held, h) + [c]];
    assert forall k :: At(held', k) == if k == h then At(held, h) + [c] else At(held, k);
    assert c in At(held', h);
    forall d | d in all ensures exists k :: d in At(held', k) {
      var k :| d in At(held, k);
      assert d in At(held', k);
    }
  }

  /** A sweep splits every place of one family into what stays and what goes to a partner
      place that was empty. */
  lemma Sweep<H(!new)>(held: map<H, seq<nat>>, held': map<H, seq<nat>>, all: set<nat>, partner: map<H, H>)
    requires ExactlyOnce(held, all)
    requires forall h :: h in partner ==> partner[h] !in partner && At(held, partner[h]) == []
    requires forall h, k :: h in partner && k in partner && partner[h] == partner[k] ==> h == k
    requires forall h :: h in partner ==>
               && NoDuplicates(At(held', h)) && NoDuplicates(At(held', partner[h]))
               && (forall c :: c in At(held', h) ==> c !in At(held', partner[h]))
               && (forall c :: c in At(held, h) <==> c in At(held', h) || c in At(held', partner[h]))
    requires forall h :: h !in partner && h !in partner.Values ==> At(held', h) == At(held, h)
    ensures ExactlyOnce(held', all)
  {
    forall c | c in all ensures exists h :: c in At(held', h) {
      var h :| c in At(held, h);
      if h in partner {
        assert c in At(held', h) || c in At(held', partner[h]);
      } else {
        assert h !in partner.Values;
        assert c in At(held', h);
      }
    }
    forall h, c | c in At(held', h)
      ensures c in At(held, Origin(partner, h))
    {
      if h in partner.Values {
        var k :| k in partner && partner[k] == h;
      }
    }
    forall h, k, c | c in At(held', h) && c in At(held', k) ensures h == k {
      assert Origin(partner, h) == Origin(partner, k);
      OriginSame(held, held', partner, h, k, c);
    }
  }

  ghost function Origin<H(!new)>(partner: map<H, H>, h: H): H {
    if h in partner.Values then var k :| k in partner && partner[k] == h; k else h
  }

  lemma OriginSame<H(!new)>(held: map<H, seq<nat>>, held': map<H, seq<nat>>, partner: map<H, H>, h: H, k: H, c: nat)
    requires forall x :: x in partner ==> partner[x] !in partner
    requires forall x, y :: x in partner && y in partner && partner[x] == partner[y] ==> x == y
    requires forall x :: x in partner ==> (c in At(held', x) ==> c !in At(held', partner[x]))
    requires c in At(held', h) && c in At(held', k) && Origin(partner, h) == Origin(partner, k)
    ensures h == k
  {
  }
}
