/** The neutral $filter syntax tree (internal/odata/odata.go) over the message fields the
    IMAP adapter knows; every other field path is Other. */
module ODataFilter {

  datatype Field =
    | Subject
    | From
    | FromAddress
    | To
    | ToAddress
    | ReceivedDateTime
    | IsRead
    | HasAttachments
    | Other(path: string)

  datatype CompareOp = Eq | Ne | Gt | Ge | Lt | Le

  datatype FuncName = StartsWith | EndsWith | Contains

  datatype Kind = StringLiteral | NumberLiteral | BooleanLiteral | DateTimeLiteral | NullLiteral

  datatype Literal = Literal(kind: Kind, value: string)

  datatype Node =
    | And(left: Node, right: Node)
    | Or(left: Node, right: Node)
    | Not(operand: Node)
    | Comparison(field: Field, op: CompareOp, value: Literal)
    | Function(name: FuncName, field: Field, arg: string)
}

/** IMAP SEARCH (section 6.4.4 of RFC 9051) as far as the adapter uses it. Instants are
    nanoseconds since the zero time 0001-01-01T00:00:00Z, which also means "unset". */
module ImapSearch {
  import opened Wrappers

  const DAY: int := 86_400_000_000_000
  const UNSET: int := 0

  datatype HeaderKey = SubjectHeader | FromHeader | ToHeader

  datatype HeaderField = HeaderField(key: HeaderKey, value: string)

  datatype Flag = Seen

  datatype OrPair = OrPair(left: Criteria, right: Criteria)

  datatype Criteria = Criteria(since: int, before: int, header: seq<HeaderField>, flag: seq<Flag>, notFlag: seq<Flag>,
                               nots: seq<Criteria>, ors: seq<OrPair>)

  const MATCH_ALL: Criteria := Criteria(UNSET, UNSET, [], [], [], [], [])

  /** How text is compared: fold is the case folding of one character, parse reads a
      date-time literal. Client and server are taken to fold alike. */
  datatype Text = Text(fold: char -> char, parse: string -> Option<int>) {

    function Fold(s: string): (r: string)
      ensures |r| == |s|
    {
      seq(|s|, i requires 0 <= i < |s| => fold(s[i]))
    }

    predicate EqualFold(a: string, b: string) { Fold(a) == Fold(b) }
  }

  predicate StandsAt(text: string, part: string, i: int) {
    0 <= i <= |text| - |part| && text[i..i + |part|] == part
  }

  predicate HasText(text: string, part: string) {
    exists i :: 0 <= i <= |text| - |part| && StandsAt(text, part, i)
  }

  predicate HasSuffix(text: string, part: string) { |part| <= |text| && text[|text| - |part|..] == part }

  /** A message: the mapped envelope fields, and the header text SEARCH looks into. */
  datatype Mail = Mail(subject: string, from: string, to: seq<string>, receivedAt: int, isRead: bool,
                       hasAttachments: bool, header: map<HeaderKey, string>)

  /** The envelope is read off the header: a non-empty subject or sender, and every
      recipient, stands in the text of its header field. */
  ghost predicate Enveloped(m: Mail) {
    && (m.subject != "" ==> SubjectHeader in m.header && HasText(m.header[SubjectHeader], m.subject))
    && (m.from != "" ==> FromHeader in m.header && HasText(m.header[FromHeader], m.from))
    && (m.to != [] ==> ToHeader in m.header)
    && (forall i :: 0 <= i < |m.to| ==> ToHeader in m.header && HasText(m.header[ToHeader], m.to[i]))
  }

  function DayOf(t: int): int { t / DAY }

  /** Criteria.And of the IMAP library: lists are joined, the later SINCE and the earlier
      BEFORE win, and an unset bound gives way. */
  function And(a: Criteria, b: Criteria): Criteria {
    Criteria(
      if a.since == UNSET then b.since else if b.since == UNSET then a.since else if a.since > b.since then a.since else b.since,
      if a.before == UNSET then b.before else if b.before == UNSET then a.before else if a.before < b.before then a.before else b.before,
      a.header + b.header, a.flag + b.flag, a.notFlag + b.notFlag, a.nots + b.nots, a.ors + b.ors)
  }

  predicate HeaderMatches(t: Text, h: HeaderField, m: Mail) {
    h.key in m.header && HasText(t.Fold(m.header[h.key]), t.Fold(h.value))
  }

  predicate WithinBounds(c: Criteria, m: Mail) {
    && (c.since != UNSET ==> DayOf(c.since) <= DayOf(m.receivedAt))
    && (c.before != UNSET ==> DayOf(m.receivedAt) < DayOf(c.before))
  }

  predicate Matches(t: Text, c: Criteria, m: Mail)
    decreases c
  {
    && WithinBounds(c, m)
    && (forall i :: 0 <= i < |c.header| ==> HeaderMatches(t, c.header[i], m))
    && (c.flag != [] ==> m.isRead)
    && (c.notFlag != [] ==> !m.isRead)
    && (forall i :: 0 <= i < |c.nots| ==> !Matches(t, c.nots[i], m))
    && (forall i :: 0 <= i < |c.ors| ==> Matches(t, c.ors[i].left, m) || Matches(t, c.ors[i].right, m))
  }

  lemma DayMonotone(a: int, b: int)
    requires a <= b
    ensures DayOf(a) <= DayOf(b)
  {
  }

  lemma AndBounds(a: Criteria, b: Criteria, m: Mail)
    ensures WithinBounds(And(a, b), m) <==> WithinBounds(a, m) && WithinBounds(b, m)
  {
    DayMonotone(if a.since < b.since then a.since else b.since, if a.since < b.since then b.since else a.since);
    DayMonotone(if a.before < b.before then a.before else b.before, if a.before < b.before then b.before else a.before);
  }

  /** And means both. */
  lemma AndMatches(t: Text, a: Criteria, b: Criteria, m: Mail)
    ensures Matches(t, And(a, b), m) <==> Matches(t, a, m) && Matches(t, b, m)
  {
    AndBounds(a, b, m);
    AllOfBoth(a.header, b.header, (h: HeaderField) => HeaderMatches(t, h, m));
    AllOfBoth(a.nots, b.nots, (n: Criteria) => !Matches(t, n, m));
    AllOfBoth(a.ors, b.ors, (o: OrPair) => Matches(t, o.left, m) || Matches(t, o.right, m));
  }

  lemma AllOfBoth<T(!new)>(a: seq<T>, b: seq<T>, holds: T -> bool)
    ensures (forall i :: 0 <= i < |a + b| ==> holds((a + b)[i])) <==>
            (forall i :: 0 <= i < |a| ==> holds(a[i])) && (forall i :: 0 <= i < |b| ==> holds(b[i]))
  {
    assert forall i :: 0 <= i < |a| ==> (a + b)[i] == a[i];
    assert forall i :: 0 <= i < |b| ==> (a + b)[|a| + i] == b[i];
  }

  /** Folding keeps containment. */
  lemma FoldContains(t: Text, text: string, part: string)
    requires HasText(text, part)
    ensures HasText(t.Fold(text), t.Fold(part))
  {
    var i :| 0 <= i <= |text| - |part| && StandsAt(text, part, i);
    assert StandsAt(t.Fold(text), t.Fold(part), i) by {
      forall k | 0 <= k < |part| ensures t.Fold(text)[i + k] == t.Fold(part)[k] {
        assert text[i..i + |part|][k] == part[k];
      }
    }
  }

  lemma ContainsTransitive(a: string, b: string, c: string)
    requires HasText(a, b) && HasText(b, c)
    ensures HasText(a, c)
  {
    var i :| 0 <= i <= |a| - |b| && StandsAt(a, b, i);
    var j :| 0 <= j <= |b| - |c| && StandsAt(b, c, j);
    assert StandsAt(a, c, i + j) by {
      forall k | 0 <= k < |c| ensures a[i + j + k] == c[k] {
        assert b[j..j + |c|][k] == c[k] && a[i..i + |b|][j + k] == b[j + k];
      }
    }
  }
}

/** internal/mail/imap/filter.go: the coarse SEARCH criteria of a filter, and the exact
    evaluation that follows. */
module FilterTranslation {
  import opened Wrappers
  import opened Sequences
  import opened ODataFilter
  import opened ImapSearch

  function TranslateFilter(t: Text, n: Node): Criteria {
    match n
    case And(l, r) => ImapSearch.And(ImapSearch.And(MATCH_ALL, TranslateFilter(t, l)), TranslateFilter(t, r))
    case Or(l, r) => MATCH_ALL.(ors := [OrPair(TranslateFilter(t, l), TranslateFilter(t, r))])
    case Not(x) =>
      (match TranslateExact(t, x)
       case Some(inner) => MATCH_ALL.(nots := [inner])
       case None => MATCH_ALL)
    case Comparison(_, _, _) =>
      (match TranslateComparison(t, n)
       case Some(c) => c
       case None => MATCH_ALL)
    case Function(_, _, _) =>
      (match TranslateFunction(n)
       case Some(c) => c
       case None => MATCH_ALL)
  }

  /** The criteria the source takes to be exact, and therefore negates. */
  function TranslateExact(t: Text, n: Node): Option<Criteria> {
    if n.Comparison? && n.op == Eq && (n.field.IsRead? || KeyOf(n.field).Some?) then TranslateComparison(t, n) else None
  }

  function KeyOf(f: Field): Option<HeaderKey> {
    match f
    case Subject => Some(SubjectHeader)
    case From => Some(FromHeader)
    case FromAddress => Some(FromHeader)
    case To => Some(ToHeader)
    case ToAddress => Some(ToHeader)
    case _ => None
  }

  function TranslateComparison(t: Text, c: Node): Option<Criteria>
    requires c.Comparison?
  {
    match KeyOf(c.field)
    case Some(key) => HeaderCriteria(key, c)
    case None =>
      if c.field.ReceivedDateTime? then DateCriteria(t, c)
      else if c.field.IsRead? then FlagCriteria(c)
      else None
  }

  function HeaderCriteria(key: HeaderKey, c: Node): Option<Criteria>
    requires c.Comparison?
  {
    if c.op != Eq || c.value.kind != StringLiteral then None
    else Some(MATCH_ALL.(header := [HeaderField(key, c.value.value)]))
  }

  function DateCriteria(t: Text, c: Node): Option<Criteria>
    requires c.Comparison?
  {
    if c.value.kind != DateTimeLiteral then None
    else match t.parse(c.value.value)
      case None => None
      case Some(ts) =>
        match c.op
        case Ge => Some(MATCH_ALL.(since := ts))
        case Gt => Some(MATCH_ALL.(since := ts))
        case Le => Some(MATCH_ALL.(before := Truncate(ts) + DAY))
        case Lt => Some(MATCH_ALL.(before := Truncate(ts) + DAY))
        case _ => None
  }

  /** Time.Truncate to a day: down to a multiple of a day since the zero time. */
  function Truncate(ts: int): int { ts - ts % DAY }

  function FlagCriteria(c: Node): Option<Criteria>
    requires c.Comparison?
  {
    if c.op != Eq || c.value.kind != BooleanLiteral then None
    else if c.value.value == "true" then Some(MATCH_ALL.(flag := [Seen]))
    else Some(MATCH_ALL.(notFlag := [Seen]))
  }

  function TranslateFunction(f: Node): Option<Criteria>
    requires f.Function?
  {
    if f.name == EndsWith then None
    else match KeyOf(f.field)
      case Some(key) => Some(MATCH_ALL.(header := [HeaderField(key, f.arg)]))
      case None => None
  }

  predicate EvalFilter(t: Text, n: Node, m: Mail) {
    match n
    case And(l, r) => EvalFilter(t, l, m) && EvalFilter(t, r, m)
    case Or(l, r) => EvalFilter(t, l, m) || EvalFilter(t, r, m)
    case Not(x) => !EvalFilter(t, x, m)
    case Comparison(_, _, _) => EvalComparison(t, n, m)
    case Function(_, _, _) => EvalFunction(t, n, m)
  }

  predicate EvalComparison(t: Text, c: Node, m: Mail)
    requires c.Comparison?
  {
    match c.field
    case Subject => CompareString(t, c.op, m.subject, c.value.value)
    case From => CompareString(t, c.op, m.from, c.value.value)
    case FromAddress => CompareString(t, c.op, m.from, c.value.value)
    case To => AnyAddress(t, c.op, m.to, c.value.value)
    case ToAddress => AnyAddress(t, c.op, m.to, c.value.value)
    case ReceivedDateTime => CompareDate(t, c.op, m.receivedAt, c.value.value)
    case IsRead => CompareBool(c.op, m.isRead, c.value.value)
    case HasAttachments => CompareBool(c.op, m.hasAttachments, c.value.value)
    case Other(_) => true
  }

  predicate EvalFunction(t: Text, f: Node, m: Mail)
    requires f.Function?
  {
    match f.field
    case Subject => ApplyStringFunc(t, f.name, m.subject, f.arg)
    case From => ApplyStringFunc(t, f.name, m.from, f.arg)
    case FromAddress => ApplyStringFunc(t, f.name, m.from, f.arg)
    case To => exists i :: 0 <= i < |m.to| && ApplyStringFunc(t, f.name, m.to[i], f.arg)
    case ToAddress => exists i :: 0 <= i < |m.to| && ApplyStringFunc(t, f.name, m.to[i], f.arg)
    case _ => true
  }

  predicate ApplyStringFunc(t: Text, name: FuncName, field: string, arg: string) {
    match name
    case Contains => HasText(t.Fold(field), t.Fold(arg))
    case StartsWith => HasPrefix(t.Fold(field), t.Fold(arg))
    case EndsWith => HasSuffix(t.Fold(field), t.Fold(arg))
  }

  predicate CompareString(t: Text, op: CompareOp, field: string, want: string) {
    match op
    case Eq => t.EqualFold(field, want)
    case Ne => !t.EqualFold(field, want)
    case _ => false
  }

  predicate AnyAddress(t: Text, op: CompareOp, addrs: seq<string>, want: string) {
    var found := exists i :: 0 <= i < |addrs| && t.EqualFold(addrs[i], want);
    match op
    case Eq => found
    case Ne => !found
    case _ => false
  }

  predicate CompareBool(op: CompareOp, field: bool, want: string) {
    match op
    case Eq => field == (want == "true")
    case Ne => field != (want == "true")
    case _ => false
  }

  predicate CompareDate(t: Text, op: CompareOp, field: int, want: string) {
    match t.parse(want)
    case None => true
    case Some(ts) =>
      match op
      case Eq => field == ts
      case Ne => field != ts
      case Gt => field > ts
      case Ge => field >= ts
      case Lt => field < ts
      case Le => field <= ts
  }

  /** The loop of anyAddress: stop at the first recipient equal to want. */
  method FindAddress(t: Text, op: CompareOp, addrs: seq<string>, want: string) returns (r: bool)
    ensures r == AnyAddress(t, op, addrs, want)
  {
    var found := false;
    for i := 0 to |addrs|
      invariant found <==> exists k :: 0 <= k < i && t.EqualFold(addrs[k], want)
    {
      if t.EqualFold(addrs[i], want) {
        found := true;
        break;
      }
    }
    match op
    case Eq => r := found;
    case Ne => r := !found;
    case _ => r := false;
  }

  // ---- When is the SEARCH result a superset? ----

  /** The two places where SEARCH can lose a message: a negated equality on a header, which
      SEARCH only knows as "contains", and an empty literal on a subject or sender, which
      asks SEARCH for the presence of the field. */
  predicate Safe(n: Node) {
    match n
    case And(l, r) => Safe(l) && Safe(r)
    case Or(l, r) => Safe(l) && Safe(r)
    case Not(x) => !NegatedHeader(x)
    case Comparison(f, op, v) => op == Eq && v.kind == StringLiteral ==> SafeLiteral(f, v.value)
    case Function(name, f, arg) => name != EndsWith ==> SafeLiteral(f, arg)
  }

  predicate NegatedHeader(x: Node) {
    x.Comparison? && x.op == Eq && x.value.kind == StringLiteral && KeyOf(x.field).Some?
  }

  predicate SafeLiteral(f: Field, v: string) {
    KeyOf(f).Some? && KeyOf(f).value != ToHeader ==> v != ""
  }

  lemma PrefixIsContained(text: string, part: string)
    requires HasPrefix(text, part)
    ensures HasText(text, part)
  {
    assert StandsAt(text, part, 0);
  }

  lemma SelfContained(text: string)
    ensures HasText(text, text)
  {
    PrefixIsContained(text, text);
  }

  /** A mapped field that contains the literal puts the literal into the header text. */
  lemma FieldInHeader(t: Text, m: Mail, key: HeaderKey, field: string, value: string)
    requires key in m.header && HasText(m.header[key], field)
    requires HasText(t.Fold(field), t.Fold(value))
    ensures HeaderMatches(t, HeaderField(key, value), m)
  {
    FoldContains(t, m.header[key], field);
    ContainsTransitive(t.Fold(m.header[key]), t.Fold(field), t.Fold(value));
  }

  /** When the evaluated field contains the literal, the header criterion matches. */
  lemma HeaderLeaf(t: Text, m: Mail, f: Field, value: string)
    requires Enveloped(m) && KeyOf(f).Some? && SafeLiteral(f, value)
    requires match KeyOf(f).value
             case SubjectHeader => HasText(t.Fold(m.subject), t.Fold(value))
             case FromHeader => HasText(t.Fold(m.from), t.Fold(value))
             case ToHeader => exists i :: 0 <= i < |m.to| && HasText(t.Fold(m.to[i]), t.Fold(value))
    ensures HeaderMatches(t, HeaderField(KeyOf(f).value, value), m)
  {
    match KeyOf(f).value
    case SubjectHeader => FieldInHeader(t, m, SubjectHeader, m.subject, value);
    case FromHeader => FieldInHeader(t, m, FromHeader, m.from, value);
    case ToHeader =>
      var i :| 0 <= i < |m.to| && HasText(t.Fold(m.to[i]), t.Fold(value));
      FieldInHeader(t, m, ToHeader, m.to[i], value);
  }

  lemma ComparisonSuperset(t: Text, n: Node, m: Mail)
    requires n.Comparison? && Enveloped(m) && Safe(n) && EvalComparison(t, n, m)
    ensures Matches(t, TranslateFilter(t, n), m)
  {
    if KeyOf(n.field).Some? && n.op == Eq && n.value.kind == StringLiteral {
      SelfContained(t.Fold(n.value.value));
      HeaderLeaf(t, m, n.field, n.value.value);
    } else if n.field.ReceivedDateTime? && t.parse(n.value.value).Some? {
      var ts := t.parse(n.value.value).value;
      assert Truncate(ts) + DAY == (DayOf(ts) + 1) * DAY;
      if ts <= m.receivedAt {
        DayMonotone(ts, m.receivedAt);
      }
      if m.receivedAt <= ts {
        DayMonotone(m.receivedAt, ts);
      }
    }
  }

  lemma FunctionSuperset(t: Text, n: Node, m: Mail)
    requires n.Function? && Enveloped(m) && Safe(n) && EvalFunction(t, n, m)
    ensures Matches(t, TranslateFilter(t, n), m)
  {
    if KeyOf(n.field).Some? && n.name != EndsWith {
      forall s | ApplyStringFunc(t, n.name, s, n.arg) ensures HasText(t.Fold(s), t.Fold(n.arg)) {
        if n.name == StartsWith {
          PrefixIsContained(t.Fold(s), t.Fold(n.arg));
        }
      }
      HeaderLeaf(t, m, n.field, n.arg);
    }
  }

  lemma BothMeans(t: Text, l: Node, r: Node, m: Mail)
    ensures Matches(t, TranslateFilter(t, Node.And(l, r)), m) <==>
            Matches(t, TranslateFilter(t, l), m) && Matches(t, TranslateFilter(t, r), m)
  {
    AndMatches(t, MATCH_ALL, TranslateFilter(t, l), m);
    AndMatches(t, ImapSearch.And(MATCH_ALL, TranslateFilter(t, l)), TranslateFilter(t, r), m);
  }

  lemma EitherMeans(t: Text, l: Node, r: Node, m: Mail)
    ensures Matches(t, TranslateFilter(t, Or(l, r)), m) <==>
            Matches(t, TranslateFilter(t, l), m) || Matches(t, TranslateFilter(t, r), m)
  {
    assert TranslateFilter(t, Or(l, r)).ors[0] == OrPair(TranslateFilter(t, l), TranslateFilter(t, r));
  }

  lemma DayMeans(t: Text, n: Node, ts: int, m: Mail)
    requires n.Comparison? && n.field.ReceivedDateTime? && n.value.kind == DateTimeLiteral && t.parse(n.value.value) == Some(ts)
    ensures n.op in {Ge, Gt} ==>
              (Matches(t, TranslateFilter(t, n), m) <==> ts == UNSET || DayOf(ts) <= DayOf(m.receivedAt))
    ensures n.op in {Le, Lt} ==>
              (Matches(t, TranslateFilter(t, n), m) <==> DayOf(ts) == -1 || DayOf(m.receivedAt) <= DayOf(ts))
  {
    assert Truncate(ts) + DAY == (DayOf(ts) + 1) * DAY;
  }

  /** Every message a safe filter keeps is in the SEARCH result. */
  lemma {:induction false} SearchIsSuperset(t: Text, n: Node, m: Mail)
    requires Enveloped(m) && Safe(n) && EvalFilter(t, n, m)
    ensures Matches(t, TranslateFilter(t, n), m)
  {
    match n
    case And(l, r) =>
      SearchIsSuperset(t, l, m);
      SearchIsSuperset(t, r, m);
      BothMeans(t, l, r, m);
    case Or(l, r) =>
      EitherMeans(t, l, r, m);
      if EvalFilter(t, l, m) {
        SearchIsSuperset(t, l, m);
      } else {
        SearchIsSuperset(t, r, m);
      }
    case Not(x) =>
      if TranslateExact(t, x).Some? {
        assert x.field.IsRead?;
      }
    case Comparison(_, _, _) => ComparisonSuperset(t, n, m);
    case Function(_, _, _) => FunctionSuperset(t, n, m);
  }

  /** What the criteria of each construct select, so that the narrowing is not void: whole
      days around a bound, the Seen flag exactly, and the connectives as themselves. A bound
      that falls on the zero time counts as unset. */
  lemma TranslationMeaning(t: Text, n: Node, m: Mail)
    ensures n.And? ==> (Matches(t, TranslateFilter(t, n), m) <==>
                        Matches(t, TranslateFilter(t, n.left), m) && Matches(t, TranslateFilter(t, n.right), m))
    ensures n.Or? ==> (Matches(t, TranslateFilter(t, n), m) <==>
                       Matches(t, TranslateFilter(t, n.left), m) || Matches(t, TranslateFilter(t, n.right), m))
    ensures n.Comparison? && n.field.IsRead? && n.op == Eq && n.value.kind == BooleanLiteral ==>
              && (Matches(t, TranslateFilter(t, n), m) <==> EvalFilter(t, n, m))
              && (Matches(t, TranslateFilter(t, Not(n)), m) <==> EvalFilter(t, Not(n), m))
    ensures n.Comparison? && n.field.ReceivedDateTime? && n.value.kind == DateTimeLiteral && t.parse(n.value.value).Some? ==>
              var ts := t.parse(n.value.value).value;
              && (n.op in {Ge, Gt} ==>
                    (Matches(t, TranslateFilter(t, n), m) <==> ts == UNSET || DayOf(ts) <= DayOf(m.receivedAt)))
              && (n.op in {Le, Lt} ==>
                    (Matches(t, TranslateFilter(t, n), m) <==> DayOf(ts) == -1 || DayOf(m.receivedAt) <= DayOf(ts)))
    ensures ((n.Comparison? && n.op == Eq && n.value.kind == StringLiteral) || (n.Function? && n.name != EndsWith)) && KeyOf(n.field).Some? ==>
              (Matches(t, TranslateFilter(t, n), m) <==>
               HeaderMatches(t, HeaderField(KeyOf(n.field).value, if n.Comparison? then n.value.value else n.arg), m))
  {
    if n.And? {
      BothMeans(t, n.left, n.right, m);
    } else if n.Or? {
      EitherMeans(t, n.left, n.right, m);
    } else if n.Comparison? && n.field.IsRead? && n.op == Eq && n.value.kind == BooleanLiteral {
      assert TranslateFilter(t, Not(n)).nots[0] == TranslateFilter(t, n);
    } else if n.Comparison? && n.field.ReceivedDateTime? && n.value.kind == DateTimeLiteral && t.parse(n.value.value).Some? {
      DayMeans(t, n, t.parse(n.value.value).value, m);
    } else if (n.Comparison? || n.Function?) && KeyOf(n.field).Some? && TranslateFilter(t, n).header != [] {
      assert TranslateFilter(t, n).header[0].value == if n.Comparison? then n.value.value else n.arg;
    }
  }

  ghost predicate NeverLoses(t: Text, n: Node) {
    forall m :: Enveloped(m) && EvalFilter(t, n, m) ==> Matches(t, TranslateFilter(t, n), m)
  }

  /** A message with the given subject, sender and recipients and matching header fields. */
  function Sample(subject: string, from: string, to: seq<string>): (m: Mail)
    requires |to| <= 1
  {
    Mail(subject, from, to, 0, false, false,
         (if subject != "" then map[SubjectHeader := subject] else map[]) +
         (if from != "" then map[FromHeader := from] else map[]) +
         (if to != [] then map[ToHeader := to[0]] else map[]))
  }

  lemma SampleEnveloped(subject: string, from: string, to: seq<string>)
    requires |to| <= 1
    ensures Enveloped(Sample(subject, from, to))
  {
    SelfContained(subject);
    SelfContained(from);
    if to != [] {
      SelfContained(to[0]);
    }
  }

  /** For one predicate, negated or not, SEARCH is a superset on all messages exactly when
      the predicate is safe: "not (subject eq 'a')" loses a message with subject "ab",
      and "subject eq ''" loses the message without a subject. */
  lemma LeafNeverLosesIffSafe(t: Text, n: Node)
    requires n.Comparison? || n.Function? || (n.Not? && n.operand.Comparison?)
    ensures NeverLoses(t, n) <==> Safe(n)
  {
    if Safe(n) {
      forall m | Enveloped(m) && EvalFilter(t, n, m) ensures Matches(t, TranslateFilter(t, n), m) {
        SearchIsSuperset(t, n, m);
      }
    } else if n.Not? {
      var v := n.operand.value.value;
      var m := Sample(v + "x", v + "x", [v + "x"]);
      SampleEnveloped(v + "x", v + "x", [v + "x"]);
      assert StandsAt(v + "x", v, 0);
      FoldContains(t, v + "x", v);
      assert |t.Fold(v + "x")| != |t.Fold(v)|;
      assert !EvalComparison(t, n.operand, m) && EvalFilter(t, n, m);
      var inner := MATCH_ALL.(header := [HeaderField(KeyOf(n.operand.field).value, v)]);
      assert Matches(t, inner, m);
      var c := TranslateFilter(t, n);
      assert c.nots[0] == inner;
      assert !Matches(t, c, m);
    } else {
      var m := Sample("", "", []);
      SampleEnveloped("", "", []);
      assert t.Fold("") == "";
      SelfContained("");
      var c := TranslateFilter(t, n);
      assert !HeaderMatches(t, c.header[0], m);
      assert !Matches(t, c, m);
    }
  }

  const IS_READ: Node := Comparison(IsRead, Eq, Literal(BooleanLiteral, "true"))
  const IS_UNREAD: Node := Comparison(IsRead, Eq, Literal(BooleanLiteral, "false"))
  const SUBJECT_IS_A: Node := Comparison(Subject, Eq, Literal(StringLiteral, "a"))

  /** The filter "not (subject eq 'a')" keeps the message with subject "ab", and SEARCH loses it. */
  lemma NegatedSubjectLosesAb(t: Text)
    ensures var m := Sample("ab", "", []);
            Enveloped(m) && EvalFilter(t, Not(SUBJECT_IS_A), m) && !Matches(t, TranslateFilter(t, Not(SUBJECT_IS_A)), m)
  {
    var m := Sample("ab", "", []);
    SampleEnveloped("ab", "", []);
    assert |t.Fold("ab")| != |t.Fold("a")|;
    assert StandsAt("ab", "a", 0);
    FoldContains(t, "ab", "a");
    var inner := MATCH_ALL.(header := [HeaderField(SubjectHeader, "a")]);
    assert TranslateFilter(t, Not(SUBJECT_IS_A)).nots[0] == inner && Matches(t, inner, m);
  }

  /** For compound filters safety is enough but not needed: one that keeps nothing loses nothing,
      whatever it holds. */
  lemma SafeIsNotNeeded(t: Text)
    ensures var n := Node.And(Node.And(IS_READ, IS_UNREAD), Not(SUBJECT_IS_A)); !Safe(n) && NeverLoses(t, n)
  {
    var n := Node.And(Node.And(IS_READ, IS_UNREAD), Not(SUBJECT_IS_A));
    forall m ensures !EvalFilter(t, n, m) {
      assert !(EvalFilter(t, IS_READ, m) && EvalFilter(t, IS_UNREAD, m));
      assert !EvalFilter(t, Node.And(IS_READ, IS_UNREAD), m);
    }
  }
}
