/** The opaque identifiers of the IMAP adapter (internal/mail/imap/id.go, delta.go)
    and the quoting of OData string literals. */
module MessageIds {
  import opened Wrappers
  import opened Decimal

  const NUL: char := '\0'

  /** Text as it travels to the client: base64url of some raw text, or text that is
      not base64url at all. */
  datatype Opaque = Base64Url(raw: string) | Malformed(text: string)

  datatype IdError = BadBase64 | BadStructure | BadValidity | BadNumber

  datatype Location = Location(mailbox: string, uidValidity: nat, uid: nat)

  datatype DeltaToken = DeltaToken(uidValidity: nat, modSeq: nat)

  function MessageId(mailbox: string, uidValidity: nat, uid: nat): Opaque {
    Base64Url(mailbox + [NUL] + Format(uidValidity) + [NUL] + Format(uid))
  }

  function DecodeMessageId(id: Opaque): Result<Location, IdError> {
    match id
    case Malformed(_) => Err(BadBase64)
    case Base64Url(raw) =>
      var parts := Split(raw, NUL);
      if |parts| != 3 then Err(BadStructure)
      else match ParseUint(parts[1], MAX_UINT32)
        case None => Err(BadValidity)
        case Some(v) =>
          match ParseUint(parts[2], MAX_UINT32)
          case None => Err(BadNumber)
          case Some(u) => Ok(Location(parts[0], v, u))
  }

  function EncodeDeltaToken(uidValidity: nat, modSeq: nat): Opaque {
    Base64Url(Format(uidValidity) + [NUL] + Format(modSeq))
  }

  function DecodeDeltaToken(token: Opaque): Result<DeltaToken, IdError> {
    match token
    case Malformed(_) => Err(BadBase64)
    case Base64Url(raw) =>
      var parts := Split(raw, NUL);
      if |parts| != 2 then Err(BadStructure)
      else match ParseUint(parts[0], MAX_UINT32)
        case None => Err(BadValidity)
        case Some(v) =>
          match ParseUint(parts[1], MAX_UINT64)
          case None => Err(BadNumber)
          case Some(m) => Ok(DeltaToken(v, m))
  }

  lemma DigitsHaveNoNul(n: nat)
    ensures NUL !in Format(n)
  {
    assert !IsDigit(NUL);
  }

  /** Decoding inverts encoding exactly for the mailbox names without a NUL. */
  lemma MessageIdRoundTrip(mailbox: string, uidValidity: nat, uid: nat)
    requires uidValidity <= MAX_UINT32 && uid <= MAX_UINT32
    ensures DecodeMessageId(MessageId(mailbox, uidValidity, uid)) == Ok(Location(mailbox, uidValidity, uid))
            <==> NUL !in mailbox
    ensures NUL in mailbox ==> DecodeMessageId(MessageId(mailbox, uidValidity, uid)) == Err(BadStructure)
  {
    var v, u := Format(uidValidity), Format(uid);
    DigitsHaveNoNul(uidValidity);
    DigitsHaveNoNul(uid);
    var raw := mailbox + [NUL] + v + [NUL] + u;
    if NUL !in mailbox {
      assert raw == mailbox + [NUL] + (v + [NUL] + u);
      SplitHead(mailbox, NUL, v + [NUL] + u);
      SplitHead(v, NUL, u);
      SplitWhole(u, NUL);
      ParseOfFormat(uidValidity, MAX_UINT32);
      ParseOfFormat(uid, MAX_UINT32);
    } else {
      CountZero(mailbox, NUL);
      CountAppend(mailbox, [NUL], NUL);
      CountAppend(mailbox + [NUL], v, NUL);
      CountAppend(mailbox + [NUL] + v, [NUL], NUL);
      CountAppend(mailbox + [NUL] + v + [NUL], u, NUL);
      SplitLength(raw, NUL);
    }
  }

  /** No two messages share an id, whatever characters the mailbox names hold. */
  lemma MessageIdInjective(a: Location, b: Location)
    requires MessageId(a.mailbox, a.uidValidity, a.uid) == MessageId(b.mailbox, b.uidValidity, b.uid)
    ensures a == b
  {
    DigitsHaveNoNul(a.uid);
    DigitsHaveNoNul(b.uid);
    DigitsHaveNoNul(a.uidValidity);
    DigitsHaveNoNul(b.uidValidity);
    LastCutUnique(a.mailbox + [NUL] + Format(a.uidValidity), Format(a.uid),
                  b.mailbox + [NUL] + Format(b.uidValidity), Format(b.uid), NUL);
    LastCutUnique(a.mailbox, Format(a.uidValidity), b.mailbox, Format(b.uidValidity), NUL);
    FormatInjective(a.uid, b.uid);
    FormatInjective(a.uidValidity, b.uidValidity);
  }

  /** A token decodes to what was encoded exactly when both numbers fit their width. */
  lemma DeltaTokenRoundTrip(uidValidity: nat, modSeq: nat)
    ensures DecodeDeltaToken(EncodeDeltaToken(uidValidity, modSeq)) == Ok(DeltaToken(uidValidity, modSeq))
            <==> uidValidity <= MAX_UINT32 && modSeq <= MAX_UINT64
  {
    DigitsHaveNoNul(uidValidity);
    DigitsHaveNoNul(modSeq);
    SplitHead(Format(uidValidity), NUL, Format(modSeq));
    SplitWhole(Format(modSeq), NUL);
    ParseOfFormat(uidValidity, MAX_UINT32);
    ParseOfFormat(modSeq, MAX_UINT64);
  }

  // ---- OData string literals ----

  const QUOTE: char := '\''

  /** The OData literal of s: quotes around it, inner quotes doubled. */
  function Quote(s: string): string { [QUOTE] + Doubled(s) + [QUOTE] }

  function Doubled(s: string): string {
    if s == "" then ""
    else if s[0] == QUOTE then [QUOTE, QUOTE] + Doubled(s[1..])
    else [s[0]] + Doubled(s[1..])
  }

  function TrimPrefix(s: string): string { if |s| > 0 && s[0] == QUOTE then s[1..] else s }

  function TrimSuffix(s: string): string { if |s| > 0 && s[|s| - 1] == QUOTE then s[..|s| - 1] else s }

  /** strings.ReplaceAll of two quotes by one: leftmost, non-overlapping. */
  function Undoubled(s: string): string {
    if |s| >= 2 && s[0] == QUOTE && s[1] == QUOTE then [QUOTE] + Undoubled(s[2..])
    else if s == "" then ""
    else [s[0]] + Undoubled(s[1..])
  }

  function Unquote(s: string): string { Undoubled(TrimSuffix(TrimPrefix(s))) }

  lemma {:induction false} UndoubleDoubled(s: string)
    ensures Undoubled(Doubled(s)) == s
  {
    if s != "" {
      UndoubleDoubled(s[1..]);
      if s[0] == QUOTE {
        assert Doubled(s)[2..] == Doubled(s[1..]);
      } else {
        assert Doubled(s)[1..] == Doubled(s[1..]);
      }
      assert s == [s[0]] + s[1..];
    }
  }

  /** Reading back a quoted literal gives the original text, runs of quotes included. */
  lemma UnquoteQuote(s: string)
    ensures Unquote(Quote(s)) == s
  {
    assert TrimPrefix(Quote(s)) == Doubled(s) + [QUOTE];
    assert TrimSuffix(Doubled(s) + [QUOTE]) == Doubled(s);
    UndoubleDoubled(s);
  }
}
