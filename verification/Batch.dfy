/** CSV ingestion: parsing a record, driving it through the service, classifying and auditing it. */
module Batch {
  import opened Domain
  import opened Sql
  import opened LedgerSpec

  // Integer parsing: strings.TrimSpace and strconv.ParseInt in base 10

  predicate IsSpace(c: char) {
    var n := c as int;
    9 <= n <= 13 || n == 0x20 || n == 0x85 || n == 0xA0 || n == 0x1680 || 0x2000 <= n <= 0x200A
    || n == 0x2028 || n == 0x2029 || n == 0x202F || n == 0x205F || n == 0x3000
  }

  function TrimLeft(s: string): string {
    if |s| > 0 && IsSpace(s[0]) then TrimLeft(s[1..]) else s
  }

  function TrimRight(s: string): string {
    if |s| > 0 && IsSpace(Last(s)) then TrimRight(Front(s)) else s
  }

  function TrimSpace(s: string): string {
    TrimRight(TrimLeft(s))
  }

  predicate IsDigit(c: char) {
    '0' <= c <= '9'
  }

  predicate AllDigits(s: string) {
    forall i :: 0 <= i < |s| ==> IsDigit(s[i])
  }

  function Value(digits: string): nat
    requires AllDigits(digits)
  {
    if |digits| == 0 then 0
    else 10 * Value(Front(digits)) + (Last(digits) as int - '0' as int)
  }

  function ParseInt(s: string): Option<Int64> {
    var negative := |s| > 0 && s[0] == '-';
    var digits := if |s| > 0 && (s[0] == '-' || s[0] == '+') then s[1..] else s;
    if |digits| == 0 || !AllDigits(digits) then None
    else if negative then (if 0 - Value(digits) < MIN_INT64 then None else Some(0 - Value(digits)))
    else if Value(digits) > MAX_INT64 then None
    else Some(Value(digits))
  }

  function ParsePoints(s: string): Option<Int64> {
    match ParseInt(TrimSpace(s))
    case Some(n) => if n < 1 then None else Some(n)
    case None => None
  }

  /** Decimal notation of a number without leading zeros (nothing for zero). */
  function Digits(n: nat): string {
    if n == 0 then [] else Digits(n / 10) + ['0' + (n % 10) as char]
  }

  lemma {:induction false} DigitsHaveValue(n: nat)
    ensures AllDigits(Digits(n)) && Value(Digits(n)) == n && (n > 0 ==> |Digits(n)| > 0)
  {
    if n > 0 {
      DigitsHaveValue(n / 10);
      FrontOfAppend(Digits(n / 10), '0' + (n % 10) as char);
    }
  }

  predicate AllSpaces(s: string) {
    forall i :: 0 <= i < |s| ==> IsSpace(s[i])
  }

  lemma {:induction false} TrimPadding(before: string, s: string, behind: string)
    requires AllSpaces(before) && AllSpaces(behind) && |s| > 0 && !IsSpace(s[0]) && !IsSpace(Last(s))
    ensures TrimSpace(before + s + behind) == s
    decreases |before| + |behind|
  {
    if |before| > 0 {
      assert (before + s + behind)[1..] == before[1..] + s + behind;
      TrimPadding(before[1..], s, behind);
    } else if |behind| > 0 {
      assert before + s + behind == s + behind && Front(s + behind) == s + Front(behind);
      TrimPadding([], s, Front(behind));
      assert [] + s + Front(behind) == s + Front(behind);
      assert (s + behind)[0] == s[0] && (s + Front(behind))[0] == s[0];
    } else {
      assert before + s + behind == s;
    }
  }

  lemma DigitsParse(n: nat)
    requires n > 0
    ensures ParseInt(Digits(n)) == if n <= MAX_INT64 then Some(n) else None
  {
    DigitsHaveValue(n);
    assert IsDigit(Digits(n)[0]);
  }

  lemma DigitsAreNoSpaces(s: string)
    requires |s| > 0 && AllDigits(s)
    ensures !IsSpace(s[0]) && !IsSpace(Last(s))
  {
    assert IsDigit(s[0]) && IsDigit(s[|s| - 1]);
  }

  /** The points column reads back every amount the store can hold, whatever spaces surround it,
      and refuses zero and everything beyond 64 bits. */
  lemma PointsReadBack(n: nat, before: string, behind: string)
    requires AllSpaces(before) && AllSpaces(behind) && n > 0
    ensures ParsePoints(before + Digits(n) + behind) == if n <= MAX_INT64 then Some(n) else None
  {
    DigitsHaveValue(n);
    DigitsAreNoSpaces(Digits(n));
    TrimPadding(before, Digits(n), behind);
    DigitsParse(n);
  }

  // The other way round: what is read was there

  lemma {:induction false} TrimLeftIs(s: string) returns (before: string)
    ensures s == before + TrimLeft(s) && AllSpaces(before)
    ensures |TrimLeft(s)| > 0 ==> !IsSpace(TrimLeft(s)[0])
  {
    before := [];
    if |s| > 0 && IsSpace(s[0]) {
      var rest := TrimLeftIs(s[1..]);
      before := [s[0]] + rest;
    }
  }

  lemma {:induction false} TrimRightIs(s: string) returns (behind: string)
    ensures s == TrimRight(s) + behind && AllSpaces(behind)
    ensures |TrimRight(s)| > 0 ==> !IsSpace(Last(TrimRight(s)))
  {
    behind := [];
    if |s| > 0 && IsSpace(Last(s)) {
      var rest := TrimRightIs(Front(s));
      behind := rest + [Last(s)];
    }
  }

  /** Trimming takes off spaces at both ends, and all of them. */
  lemma TrimSpaceIs(s: string) returns (before: string, behind: string)
    ensures s == before + TrimSpace(s) + behind && AllSpaces(before) && AllSpaces(behind)
    ensures |TrimSpace(s)| > 0 ==> !IsSpace(TrimSpace(s)[0]) && !IsSpace(Last(TrimSpace(s)))
  {
    before := TrimLeftIs(s);
    behind := TrimRightIs(TrimLeft(s));
    assert s == before + (TrimSpace(s) + behind);
    if |TrimSpace(s)| > 0 {
      assert TrimLeft(s)[0] == TrimSpace(s)[0];
    }
  }

  /** The word amid spaces. */
  ghost predicate Padded(text: string, word: string) {
    exists before: string, behind: string :: text == before + word + behind && AllSpaces(before) && AllSpaces(behind)
  }

  lemma TrimmedIsPadded(text: string, word: string)
    requires |word| > 0 && !IsSpace(word[0]) && !IsSpace(Last(word))
    ensures TrimSpace(text) == word <==> Padded(text, word)
  {
    if TrimSpace(text) == word {
      var before, behind := TrimSpaceIs(text);
    }
    if before: string, behind: string :| text == before + word + behind && AllSpaces(before) && AllSpaces(behind) {
      TrimPadding(before, word, behind);
    }
  }

  /** A decimal number: an optional sign and at least one digit. */
  ghost predicate Numeral(s: string, n: int) {
    exists sign: string, digits: string :: SignedDigits(s, sign, digits, n)
  }

  ghost predicate SignedDigits(s: string, sign: string, digits: string, n: int) {
    && s == sign + digits && (sign == "" || sign == "+" || sign == "-")
    && |digits| > 0 && AllDigits(digits) && n == if sign == "-" then 0 - Value(digits) else Value(digits)
  }

  lemma ReadsNumeral(s: string, sign: string, digits: string, n: int)
    requires SignedDigits(s, sign, digits, n)
    ensures ParseInt(s) == if MIN_INT64 <= n <= MAX_INT64 then Some(n) else None
  {
    assert IsDigit(digits[0]);
    if sign == "" {
      assert s == digits;
    } else {
      assert s[0] == sign[0] && s[1..] == digits;
    }
  }

  lemma ReadWasNumeral(s: string)
    requires ParseInt(s).Some?
    ensures Numeral(s, ParseInt(s).value)
  {
    var sign := if s[0] == '-' || s[0] == '+' then [s[0]] else [];
    assert SignedDigits(s, sign, s[|sign|..], ParseInt(s).value);
  }

  /** The text of a points column that stands for n. */
  ghost predicate PointsText(s: string, n: int) {
    exists before: string, numeral: string, behind: string ::
      s == before + numeral + behind && AllSpaces(before) && AllSpaces(behind) && Numeral(numeral, n)
  }

  lemma NumeralHasNoSpaces(s: string, n: int)
    requires Numeral(s, n)
    ensures |s| > 0 && !IsSpace(s[0]) && !IsSpace(Last(s))
  {
    var sign: string, digits: string :| SignedDigits(s, sign, digits, n);
    DigitsAreNoSpaces(digits);
    assert Last(s) == Last(digits) && s[0] == (sign + digits)[0];
  }

  /** The points column is read exactly when it is a number from 1 to 2^63-1 amid spaces, and as that number. */
  lemma PointsAreRead(s: string, n: int)
    ensures ParsePoints(s).Some? && ParsePoints(s).value == n <==> PointsText(s, n) && 1 <= n <= MAX_INT64
  {
    if ParsePoints(s).Some? {
      var before, behind := TrimSpaceIs(s);
      ReadWasNumeral(TrimSpace(s));
    }
    if PointsText(s, n) {
      var before: string, numeral: string, behind: string :|
        s == before + numeral + behind && AllSpaces(before) && AllSpaces(behind) && Numeral(numeral, n);
      NumeralHasNoSpaces(numeral, n);
      TrimPadding(before, numeral, behind);
      var sign: string, digits: string :| SignedDigits(numeral, sign, digits, n);
      ReadsNumeral(numeral, sign, digits, n);
    }
  }

  lemma OneMoreDigit(digits: string, c: char)
    requires AllDigits(digits) && IsDigit(c)
    ensures AllDigits(digits + [c]) && Value(digits + [c]) == 10 * Value(digits) + (c as int - '0' as int)
  {
    FrontOfAppend(digits, c);
  }

  /** Decimal notation by example, and the bounds in it. */
  lemma Decimals()
    ensures AllDigits("40215") && Value("40215") == 40215
    ensures MAX_INT64 == 9223372036854775807 && MIN_INT64 == -9223372036854775808
  {
    assert Value("") == 0;
    OneMoreDigit("", '4');
    OneMoreDigit("4", '0');
    OneMoreDigit("40", '2');
    OneMoreDigit("402", '1');
    OneMoreDigit("4021", '5');
    assert "" + ['4'] == "4" && "4" + ['0'] == "40" && "40" + ['2'] == "402";
    assert "402" + ['1'] == "4021" && "4021" + ['5'] == "40215";
  }

  /** The digits, and the characters with the Unicode property White_Space, one by one. */
  lemma Characters(c: char)
    ensures IsDigit(c) <==> c in "0123456789"
    ensures IsSpace(c) <==>
            || c in "\t\n\U{0B}\U{0C}\r \U{85}\U{A0}\U{1680}\U{2028}\U{2029}\U{202F}\U{205F}\U{3000}"
            || c in "\U{2000}\U{2001}\U{2002}\U{2003}\U{2004}\U{2005}\U{2006}\U{2007}\U{2008}\U{2009}\U{200A}"
  {
    var digits := "0123456789";
    if IsDigit(c) {
      assert digits[c as int - '0' as int] == c;
    }
  }

  // Rows

  /** What one read of the CSV reader yields: a broken record, or its fields.
      `at` is the result of parsing the fifth field, when there is one, as an RFC 3339 time. */
  datatype ReadResult = Malformed | Fields(fields: seq<string>, at: Option<Time>)

  const HEADER: seq<string> := ["ref", "account_id", "kind", "points", "occurred_at"]

  datatype Parsed = Good(txn: Transaction) | Bad(reason: string)

  function ParseRow(fields: seq<string>, at: Option<Time>): Parsed {
    if |fields| != |HEADER| then Bad("malformed row")
    else if fields[2] != "earn" && fields[2] != "spend" then Bad("invalid kind")
    else if ParsePoints(fields[3]).None? then Bad("invalid points")
    else if at.None? then Bad("invalid occurred_at")
    else Good(Transaction(fields[0], fields[1], if fields[2] == "earn" then Earn else Spend,
                          ParsePoints(fields[3]).value, "", at.value))
  }

  predicate KindKnown(text: string) {
    text == "earn" || text == "spend"
  }

  ghost predicate PointsKnown(text: string) {
    exists n: int :: 1 <= n <= MAX_INT64 && PointsText(text, n)
  }

  /** Five fields, a known kind, a positive 64-bit amount and a time. */
  ghost predicate WellFormedRow(fields: seq<string>, at: Option<Time>) {
    |fields| == 5 && KindKnown(fields[2]) && PointsKnown(fields[3]) && at.Some?
  }

  /** The first thing wrong with a row. */
  ghost predicate Flaw(fields: seq<string>, at: Option<Time>, reason: string) {
    if |fields| != 5 then reason == "malformed row"
    else if !KindKnown(fields[2]) then reason == "invalid kind"
    else if !PointsKnown(fields[3]) then reason == "invalid points"
    else at.None? && reason == "invalid occurred_at"
  }

  /** The transaction is what the row writes down. */
  ghost predicate Writes(fields: seq<string>, at: Option<Time>, t: Transaction) {
    && |fields| == 5 && t.ref == fields[0] && t.account == fields[1]
    && t.kind == (if fields[2] == "earn" then Earn else Spend) && PointsText(fields[3], t.points)
    && t.reward == "" && at == Some(t.at)
  }

  lemma PointsKnownIsRead(text: string)
    ensures ParsePoints(text).Some? <==> PointsKnown(text)
    ensures ParsePoints(text).Some? ==> 1 <= ParsePoints(text).value && PointsText(text, ParsePoints(text).value)
  {
    if ParsePoints(text).Some? {
      PointsAreRead(text, ParsePoints(text).value);
    }
    if n: int :| 1 <= n <= MAX_INT64 && PointsText(text, n) {
      PointsAreRead(text, n);
    }
  }

  /** A row parses exactly when it is well formed, to what it writes down; any other row is refused for the
      first thing wrong with it. */
  lemma RowsAreDecided(fields: seq<string>, at: Option<Time>)
    ensures match ParseRow(fields, at)
            case Good(t) => WellFormedRow(fields, at) && Writes(fields, at, t) && t.points >= 1
            case Bad(reason) => !WellFormedRow(fields, at) && Flaw(fields, at, reason)
  {
    if |fields| == 5 {
      PointsKnownIsRead(fields[3]);
    }
  }

  /** A well-formed row reads back as the transaction it writes down. */
  lemma RowReadsBack(t: Transaction, stamp: string)
    requires (t.kind == Earn || t.kind == Spend) && t.points > 0 && t.reward == ""
    ensures ParseRow([t.ref, t.account, KindText(t.kind), Digits(t.points), stamp], Some(t.at)) == Good(t)
  {
    PointsReadBack(t.points, "", "");
    assert "" + Digits(t.points) + "" == Digits(t.points);
  }

  function FieldOr(fields: seq<string>, k: nat): string {
    if k < |fields| then fields[k] else ""
  }

  // Audit

  datatype AuditOutcome = Accepted | Rejected | Duplicate | Unknown(text: string)

  datatype AuditEntry = AuditEntry(
    ref: string,
    account: string,
    kind: string,
    points: Int64,
    outcome: AuditOutcome,
    reason: string)

  function KindText(k: Kind): string {
    match k
    case Earn => "earn"
    case Spend => "spend"
    case Redeem => "redeem"
    case Other(name) => name
  }

  function KindOf(text: string): Kind {
    if text == "earn" then Earn
    else if text == "spend" then Spend
    else if text == "redeem" then Redeem
    else Other(text)
  }

  function Classify(o: Outcome): (AuditOutcome, string) {
    match o
    case Stored(_, created) => if created then (Accepted, "ok") else (Duplicate, "duplicate ref")
    case Failed(e) =>
      if e == NotFound then (Rejected, "account not found")
      else if e == InsufficientBalance then (Rejected, "insufficient balance")
      else (Rejected, "rejected")
  }

  function EntryFor(t: Transaction, o: Outcome): AuditEntry {
    AuditEntry(t.ref, t.account, KindText(t.kind), t.points, Classify(o).0, Classify(o).1)
  }

  // The service

  predicate InputOk(t: Transaction) {
    t.ref != "" && t.account != "" && t.points > 0
  }

  function RecordEarn(l: Ledger, t: Transaction, f: Fault): (Ledger, Outcome) {
    if !InputOk(t) then (l, Failed(InvalidInput)) else RecordWith(l, t.(kind := Earn), f)
  }

  function RecordSpend(l: Ledger, t: Transaction, f: Fault): (Ledger, Outcome) {
    if !InputOk(t) then (l, Failed(InvalidInput)) else RecordWith(l, t.(kind := Spend), f)
  }

  function RecordRedeem(l: Ledger, t: Transaction, f: Fault): (Ledger, Outcome) {
    if !InputOk(t) || t.reward == "" then (l, Failed(InvalidInput)) else RecordWith(l, t.(kind := Redeem), f)
  }

  // One row

  /** A row is refused without the store, or submitted to it. */
  datatype RowPlan = Settled(entry: AuditEntry) | Submit(txn: Transaction)

  const MALFORMED: RowPlan := Settled(AuditEntry("", "", "", 0, Rejected, "malformed row"))

  /** What parsing and the service's own checks guarantee of a row. */
  predicate Usable(p: RowPlan) {
    match p
    case Settled(e) => e.outcome == Rejected
    case Submit(t) => InputOk(t) && (t.kind == Earn || t.kind == Spend) && t.reward == ""
  }

  type Plan = p: RowPlan | Usable(p) witness MALFORMED

  function PlanFor(r: ReadResult): Plan {
    match r
    case Malformed => MALFORMED
    case Fields(fields, at) =>
      match ParseRow(fields, at)
      case Bad(reason) =>
        Settled(AuditEntry(FieldOr(fields, 0), FieldOr(fields, 1), FieldOr(fields, 2), 0, Rejected, reason))
      case Good(t) => if InputOk(t) then Submit(t) else Settled(EntryFor(t, Failed(InvalidInput)))
  }

  function RowStep(l: Ledger, p: Plan, f: Fault): (Ledger, AuditEntry) {
    match p
    case Settled(e) => (l, e)
    case Submit(t) => var (after, o) := RecordWith(l, t, f); (after, EntryFor(t, o))
  }

  // A whole file

  /** One row as an upload meets it: its plan, the store fault it hits, whether its audit write works. */
  datatype Item = Item(plan: Plan, fault: Fault, audited: bool)

  /** The ledger after the file and the audit entry of each row. */
  datatype Run = Run(ledger: Ledger, entries: seq<AuditEntry>)

  function RunFile(l: Ledger, file: seq<Item>): (run: Run)
    ensures |run.entries| == |file|
  {
    if |file| == 0 then Run(l, [])
    else
      var before := RunFile(l, Front(file));
      var (after, e) := RowStep(before.ledger, Last(file).plan, Last(file).fault);
      Run(after, before.entries + [e])
  }

  datatype Summary = Summary(processed: nat, accepted: nat, rejected: nat, duplicates: nat)

  function Bump(s: Summary, o: AuditOutcome): Summary {
    match o
    case Accepted => s.(processed := s.processed + 1, accepted := s.accepted + 1)
    case Duplicate => s.(processed := s.processed + 1, duplicates := s.duplicates + 1)
    case _ => s.(processed := s.processed + 1, rejected := s.rejected + 1)
  }

  function Summarise(entries: seq<AuditEntry>): Summary {
    if |entries| == 0 then Summary(0, 0, 0, 0)
    else Bump(Summarise(Front(entries)), Last(entries).outcome)
  }

  /** The rows whose audit write worked. */
  function Audited(file: seq<Item>, entries: seq<AuditEntry>): seq<AuditEntry>
    requires |file| == |entries|
  {
    if |file| == 0 then []
    else Audited(Front(file), Front(entries)) + if Last(file).audited then [Last(entries)] else []
  }
}
