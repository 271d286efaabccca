/** internal/mail/imap/imap.go, listing: a window of sequence numbers without a filter, and
    SEARCH, re-check and page with one. */
module MessageList {
  import opened Wrappers
  import opened Sequences
  import opened ODataFilter
  import opened ImapSearch
  import opened FilterTranslation

  const TWO_TO_THE_32: int := 0x1_0000_0000

  /** Top is the page size (0 or less for no bound), skip the number of newest messages passed over. */
  datatype Paging = Paging(top: int, skip: int)

  datatype ListError = FetchFailed

  /** uint32(x): conversion keeps the low 32 bits. */
  function Uint32(x: int): int { x % TWO_TO_THE_32 }

  function Max(a: int, b: int): int { if a > b then a else b }

  function Min(a: int, b: int): int { if a < b then a else b }

  /** Top and Skip applied to a list that is already newest first. */
  function PageMessages<T>(msgs: seq<T>, page: Paging): seq<T> {
    var skip := Max(page.skip, 0);
    if skip >= |msgs| then []
    else if 0 < page.top < |msgs| - skip then msgs[skip..skip + page.top]
    else msgs[skip..]
  }

  /** FETCH of one sequence-number range from a mailbox in arrival order; the bounds may
      come in either order, and a number beyond the last message is an error
      (section 9 of RFC 9051, seq-range). */
  function FetchRange<T>(box: seq<T>, start: int, stop: int): Result<seq<T>, ListError>
    requires 1 <= start && 1 <= stop
  {
    if Max(start, stop) > |box| then Err(FetchFailed) else Ok(box[Min(start, stop) - 1..Max(start, stop)])
  }

  /** The unfiltered listing over a mailbox of fewer than 2^32 messages. */
  function Window<T>(box: seq<T>, page: Paging): Result<seq<T>, ListError> {
    var n := |box|;
    var skip := Uint32(Max(page.skip, 0));
    if n == 0 || skip >= n then Ok([])
    else
      var hi := n - skip;
      var lo := if page.top > 0 && Uint32(page.top) < hi then hi - Uint32(page.top) + 1 else 1;
      match FetchRange(box, lo, hi)
      case Err(e) => Err(e)
      case Ok(msgs) => Ok(Reverse(msgs))
  }

  /** Messages by arrival; SEARCH answers with those that match, FETCH returns them in order. */
  function SearchResult(t: Text, box: seq<Mail>, c: Criteria): seq<Mail> {
    Filter(box, m => Matches(t, c, m))
  }

  function Kept(t: Text, box: seq<Mail>, n: Node): seq<Mail> { Filter(box, m => EvalFilter(t, n, m)) }

  /** The loop that re-checks every candidate. */
  method Recheck(t: Text, candidates: seq<Mail>, n: Node) returns (msgs: seq<Mail>)
    ensures msgs == Kept(t, candidates, n)
  {
    msgs := [];
    for i := 0 to |candidates|
      invariant msgs == Kept(t, candidates[..i], n)
    {
      assert candidates[..i + 1][..i] == candidates[..i];
      if EvalFilter(t, n, candidates[i]) {
        msgs := msgs + [candidates[i]];
      }
    }
    assert candidates[..|candidates|] == candidates;
  }

  /** SEARCH with the coarse criteria, then the exact re-check of every candidate. */
  method ListFiltered(t: Text, box: seq<Mail>, n: Node, page: Paging) returns (r: seq<Mail>)
    ensures Safe(n) && (forall m :: m in box ==> Enveloped(m)) ==> r == PageMessages(Reverse(Kept(t, box, n)), page)
    ensures forall m :: m in r ==> m in box && EvalFilter(t, n, m)
  {
    var candidates := SearchResult(t, box, TranslateFilter(t, n));
    if candidates == [] {
      r := [];
    } else {
      var msgs := Recheck(t, candidates, n);
      r := PageMessages(Reverse(msgs), page);
    }
    assert r == PageMessages(Reverse(Kept(t, candidates, n)), page);
    OnlyKept(t, box, n);
    assert forall m :: m in r ==> m in Kept(t, candidates, n);
    if Safe(n) && (forall m :: m in box ==> Enveloped(m)) {
      FilteredListingIsExact(t, box, n);
    }
  }

  lemma OnlyKept(t: Text, box: seq<Mail>, n: Node)
    ensures forall m :: m in Kept(t, SearchResult(t, box, TranslateFilter(t, n)), n) ==> m in box && EvalFilter(t, n, m)
  {
    var candidates := SearchResult(t, box, TranslateFilter(t, n));
    FilterElements(box, m => Matches(t, TranslateFilter(t, n), m));
    FilterElements(candidates, m => EvalFilter(t, n, m));
  }

  /** SEARCH followed by the exact re-check keeps exactly what the filter keeps. */
  lemma FilteredListingIsExact(t: Text, box: seq<Mail>, n: Node)
    requires Safe(n) && forall m :: m in box ==> Enveloped(m)
    ensures Kept(t, SearchResult(t, box, TranslateFilter(t, n)), n) == Kept(t, box, n)
  {
    forall m | m in box && EvalFilter(t, n, m) ensures Matches(t, TranslateFilter(t, n), m) {
      SearchIsSuperset(t, n, m);
    }
    FilterRefines(box, m => Matches(t, TranslateFilter(t, n), m), m => EvalFilter(t, n, m));
  }

  /** Whether the 32-bit window reaches the messages the page asks for. */
  predicate WindowFits(n: nat, page: Paging) {
    var skip := Max(page.skip, 0);
    || n <= Uint32(skip)
    || (skip < TWO_TO_THE_32 && (page.top < TWO_TO_THE_32 || n - skip <= Uint32(page.top)))
  }

  /** Without a filter the sequence-number window is the same paging of the newest-first
      list exactly when the page survives the conversion to 32 bits. */
  lemma WindowIsPagingIff<T>(box: seq<T>, page: Paging)
    requires |box| < TWO_TO_THE_32 && NoDuplicates(box)
    ensures Window(box, page) == Ok(PageMessages(Reverse(box), page)) <==> WindowFits(|box|, page)
    ensures 0 <= page.skip < TWO_TO_THE_32 && page.top < TWO_TO_THE_32 ==> WindowFits(|box|, page)
  {
    var n, skip := |box|, Max(page.skip, 0);
    if n <= Uint32(skip) {
    } else if skip >= TWO_TO_THE_32 {
      assert PageMessages(Reverse(box), page) == [];
    } else {
      WindowNoWrap(box, page, skip);
    }
  }

  lemma PageFromTheEnd<T>(box: seq<T>, hi: nat, top: nat)
    requires top <= hi <= |box|
    ensures Reverse(box[..hi])[..top] == Reverse(box[hi - top..hi])
  {
  }

  lemma WindowNoWrap<T>(box: seq<T>, page: Paging, skip: nat)
    requires |box| < TWO_TO_THE_32 && NoDuplicates(box)
    requires skip == Max(page.skip, 0) < |box|
    ensures Window(box, page) == Ok(PageMessages(Reverse(box), page)) <==> WindowFits(|box|, page)
  {
    var hi := |box| - skip;
    var want := PageMessages(Reverse(box), page);
    assert Uint32(skip) == skip;
    assert Reverse(box)[skip..] == Reverse(box[..hi]);
    if page.top <= 0 || Uint32(page.top) >= hi {
      assert box[0..hi] == box[..hi];
    } else if page.top < TWO_TO_THE_32 {
      assert Uint32(page.top) == page.top;
      assert want == Reverse(box)[skip..][..page.top];
      PageFromTheEnd(box, hi, page.top);
    } else if Uint32(page.top) == 0 {
      if skip > 0 {
        assert Window(box, page).value[0] == box[hi];
        assert want[0] == box[hi - 1];
      }
    } else {
      assert |Window(box, page).value| == Uint32(page.top) < |want|;
    }
  }

  /** A Skip of 2^32 should pass over everything and passes over nothing. */
  lemma SkipWraps<T>(x: T)
    ensures Window([x], Paging(1, TWO_TO_THE_32)) == Ok([x])
    ensures PageMessages(Reverse([x]), Paging(1, TWO_TO_THE_32)) == []
  {
    assert Uint32(TWO_TO_THE_32) == 0;
    assert [x][0..1] == [x] && Reverse([x]) == [x];
  }
}
