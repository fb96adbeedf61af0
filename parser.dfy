/** The journal reader: a line-driven state machine over the lines of a journal file. Blank
    lines and comment lines end the open transaction; the first line of a block is its header
    (a date and a description), the lines after it are its postings, and `VERIFY-BALANCE`
    lines may appear anywhere without ending the open transaction. */
module Parser {
  import opened Text
  import opened Results
  import opened Accounts
  import opened Amounts
  import opened Journal

  /** The date library the ledger relies on, passed in: which strings it accepts as dates and
      the ISO-8601 rendering of an accepted one. */
  datatype DateParser = DateParser(valid: string -> bool, isoformat: string -> string)

  /** reformat_date: the first ten characters of the ISO rendering, its `YYYY-MM-DD` part. */
  function ReformatDate(dp: DateParser, date: string): (r: string)
    ensures StartsWith(dp.isoformat(date), r)
    ensures |r| == if |dp.isoformat(date)| < 10 then |dp.isoformat(date)| else 10
  {
    var iso := dp.isoformat(date);
    if |iso| <= 10 then iso else iso[..10]
  }

  // ---------------------------------------------------------------- single lines

  /** parse_first_line: the first word of the stripped line is the date, the stripped rest is
      the description. A line without words fails where `split()[0]` would; a word the date
      library rejects fails with that word. */
  function ParseFirstLine(dp: DateParser, lineNumber: int, line: string): (r: Result<Transaction>)
    ensures r.Ok? ==> r.value.line == lineNumber && r.value.postings == []
  {
    var stripped := Strip(line);
    var split := Tokens(stripped);
    if split == [] then Err(MissingToken(lineNumber))
    else
      TokensHead(stripped);
      var date := split[0];
      var description := Strip(stripped[|date|..]);
      if !dp.valid(date) then Err(InvalidDate(lineNumber, date))
      else Ok(Transaction(lineNumber, ReformatDate(dp, date), description, []))
  }

  /** The outcomes of parse_first_line: which lines fail and how, and what a header holds. */
  lemma ParseFirstLineCases(dp: DateParser, lineNumber: int, line: string)
    ensures ParseFirstLine(dp, lineNumber, line).Ok? <==> Tokens(Strip(line)) != [] && dp.valid(Tokens(Strip(line))[0])
    ensures Tokens(Strip(line)) == [] ==> ParseFirstLine(dp, lineNumber, line) == Err(MissingToken(lineNumber))
    ensures Tokens(Strip(line)) != [] && !dp.valid(Tokens(Strip(line))[0]) ==>
              ParseFirstLine(dp, lineNumber, line) == Err(InvalidDate(lineNumber, Tokens(Strip(line))[0]))
    ensures ParseFirstLine(dp, lineNumber, line).Ok? ==>
              && ParseFirstLine(dp, lineNumber, line).value.date == ReformatDate(dp, Tokens(Strip(line))[0])
              && Strip(ParseFirstLine(dp, lineNumber, line).value.description) == ParseFirstLine(dp, lineNumber, line).value.description
              && |Tokens(Strip(line))[0]| <= |Strip(line)|
              && ParseFirstLine(dp, lineNumber, line).value.description == Strip(Strip(line)[|Tokens(Strip(line))[0]|..])
  {
    var stripped := Strip(line);
    if Tokens(stripped) != [] {
      TokensHead(stripped);
      StripIdempotent(stripped[|Tokens(stripped)[0]|..]);
    }
  }

  /** The amount of a posting or verification: read with the account's sign when signs are
      adjusted, plainly otherwise. */
  function ParseAmountFor(account: string, amountString: string, adjustSign: bool): Result<Amount> {
    if adjustSign then ParseAmountAdjustingSign(account, amountString) else ParseAmount(amountString)
  }

  /** parse_posting: the first word is the account, the second the amount with every `$`
      deleted. Fewer than two words fail where `split()[1]` would; the account is checked
      before the amount is read. */
  function ParsePosting(lineNumber: int, line: string, adjustSign: bool): (r: Result<Posting>)
    ensures r.Ok? ==> r.value.line == lineNumber
  {
    var split := Tokens(Strip(line));
    if |split| < 2 then Err(MissingToken(lineNumber))
    else
      var account := split[0];
      var amountString := RemoveChars(split[1], {'$'});
      if !IsValidAccountString(account) then Err(InvalidAccount(lineNumber, account))
      else
        var amount :- ParseAmountFor(account, amountString, adjustSign);
        Ok(Posting(lineNumber, account, amount))
  }

  /** The outcomes of parse_posting: the error conditions in the order they are checked, and
      that a posting is read only when the account is valid and its amount parses. */
  lemma ParsePostingCases(lineNumber: int, line: string, adjustSign: bool)
    ensures |Tokens(Strip(line))| < 2 ==> ParsePosting(lineNumber, line, adjustSign) == Err(MissingToken(lineNumber))
    ensures |Tokens(Strip(line))| >= 2 && !IsValidAccountString(Tokens(Strip(line))[0]) ==>
              ParsePosting(lineNumber, line, adjustSign) == Err(InvalidAccount(lineNumber, Tokens(Strip(line))[0]))
    ensures |Tokens(Strip(line))| >= 2 && IsValidAccountString(Tokens(Strip(line))[0])
              && ParseAmountFor(Tokens(Strip(line))[0], RemoveChars(Tokens(Strip(line))[1], {'$'}), adjustSign).Err? ==>
              ParsePosting(lineNumber, line, adjustSign)
              == Err(ParseAmountFor(Tokens(Strip(line))[0], RemoveChars(Tokens(Strip(line))[1], {'$'}), adjustSign).error)
    ensures ParsePosting(lineNumber, line, adjustSign).Ok? ==>
              && |Tokens(Strip(line))| >= 2
              && ParsePosting(lineNumber, line, adjustSign).value.account == Tokens(Strip(line))[0]
              && IsValidAccountString(ParsePosting(lineNumber, line, adjustSign).value.account)
              && ParseAmountFor(Tokens(Strip(line))[0], RemoveChars(Tokens(Strip(line))[1], {'$'}), adjustSign)
                 == Ok(ParsePosting(lineNumber, line, adjustSign).value.amount)
  {
  }

  /** A header written as its date, whitespace and a description reads back as that date
      (reformatted) and that description. */
  lemma FirstLineRoundTrip(dp: DateParser, lineNumber: int, date: string, sp: string, description: string)
    requires date != [] && forall i :: 0 <= i < |date| ==> !IsSpace(date[i])
    requires sp != [] && forall i :: 0 <= i < |sp| ==> IsSpace(sp[i])
    requires Strip(description) == description
    requires dp.valid(date)
    ensures ParseFirstLine(dp, lineNumber, date + sp + description)
         == Ok(Transaction(lineNumber, ReformatDate(dp, date), description, []))
  {
    WordThenRest(date, sp, description);
  }

  /** A posting written as indentation, the account, whitespace and its formatted amount
      reads back as that account and amount (the signs left as written). */
  lemma PostingRoundTrip(lineNumber: int, indent: string, account: string, gap: string, a: Amount, trailing: string)
    requires forall i :: 0 <= i < |indent| ==> IsSpace(indent[i])
    requires gap != [] && forall i :: 0 <= i < |gap| ==> IsSpace(gap[i])
    requires forall i :: 0 <= i < |trailing| ==> IsSpace(trailing[i])
    requires account != [] && forall i :: 0 <= i < |account| ==> !IsSpace(account[i])
    requires IsValidAccountString(account)
    requires a.Nil? || a.units == DefaultUnits
    ensures FormatAmount(a).Ok?
    ensures ParsePosting(lineNumber, indent + account + gap + FormatAmount(a).value + trailing, false)
         == Ok(Posting(lineNumber, account, a))
  {
    FormatParseWithoutDollar(a);
    FormatAmountChars(a);
    var f := FormatAmount(a).value;
    assert forall i :: 0 <= i < |f| ==> !IsSpace(f[i]) by {
      forall i | 0 <= i < |f| ensures !IsSpace(f[i]) {
        assert AmountChar(f[i]);
      }
    }
    TwoWords(indent, account, gap, f, trailing);
  }

  /** parse_balance_verify: exactly four words, `VERIFY-BALANCE date account amount`. The
      account is checked before the date, the date before the amount, and the date is kept as
      written rather than reformatted. */
  function ParseBalanceVerify(dp: DateParser, lineNumber: int, line: string, adjustSign: bool): Result<Verification> {
    var split := Tokens(Strip(line));
    if |split| != 4 then Err(MalformedVerify(lineNumber, |split|))
    else
      var date := split[1];
      var account := split[2];
      var amountString := RemoveChars(split[3], {'$'});
      if !IsValidAccountString(account) then Err(InvalidAccount(lineNumber, account))
      else if !dp.valid(date) then Err(InvalidDate(lineNumber, date))
      else
        var amount :- ParseAmountFor(account, amountString, adjustSign);
        Ok(Verification(date, account, amount))
  }

  /** The outcomes of parse_balance_verify: the error conditions in the order they are
      checked, and that a verification holds the date as written, the account and the amount. */
  lemma ParseBalanceVerifyCases(dp: DateParser, lineNumber: int, line: string, adjustSign: bool)
    ensures |Tokens(Strip(line))| != 4 ==>
              ParseBalanceVerify(dp, lineNumber, line, adjustSign) == Err(MalformedVerify(lineNumber, |Tokens(Strip(line))|))
    ensures |Tokens(Strip(line))| == 4 && !IsValidAccountString(Tokens(Strip(line))[2]) ==>
              ParseBalanceVerify(dp, lineNumber, line, adjustSign) == Err(InvalidAccount(lineNumber, Tokens(Strip(line))[2]))
    ensures |Tokens(Strip(line))| == 4 && IsValidAccountString(Tokens(Strip(line))[2]) && !dp.valid(Tokens(Strip(line))[1]) ==>
              ParseBalanceVerify(dp, lineNumber, line, adjustSign) == Err(InvalidDate(lineNumber, Tokens(Strip(line))[1]))
    ensures |Tokens(Strip(line))| == 4 && IsValidAccountString(Tokens(Strip(line))[2]) && dp.valid(Tokens(Strip(line))[1])
              && ParseAmountFor(Tokens(Strip(line))[2], RemoveChars(Tokens(Strip(line))[3], {'$'}), adjustSign).Err? ==>
              ParseBalanceVerify(dp, lineNumber, line, adjustSign)
              == Err(ParseAmountFor(Tokens(Strip(line))[2], RemoveChars(Tokens(Strip(line))[3], {'$'}), adjustSign).error)
    ensures ParseBalanceVerify(dp, lineNumber, line, adjustSign).Ok? ==>
              && |Tokens(Strip(line))| == 4
              && ParseBalanceVerify(dp, lineNumber, line, adjustSign).value.date == Tokens(Strip(line))[1]
              && dp.valid(ParseBalanceVerify(dp, lineNumber, line, adjustSign).value.date)
              && ParseBalanceVerify(dp, lineNumber, line, adjustSign).value.account == Tokens(Strip(line))[2]
              && IsValidAccountString(ParseBalanceVerify(dp, lineNumber, line, adjustSign).value.account)
              && ParseAmountFor(Tokens(Strip(line))[2], RemoveChars(Tokens(Strip(line))[3], {'$'}), adjustSign)
                 == Ok(ParseBalanceVerify(dp, lineNumber, line, adjustSign).value.amount)
  {
  }

  /** The keyword of a verification line is one word, and upper case. */
  lemma VerifyKeyword()
    ensures forall i :: 0 <= i < |"VERIFY-BALANCE"| ==> !IsSpace("VERIFY-BALANCE"[i])
    ensures Upper("VERIFY-BALANCE") == "VERIFY-BALANCE"
  {
  }

  /** Four words, the last a formatted amount, read as a verification whatever the first is. */
  lemma VerifyWordsRoundTrip(dp: DateParser, lineNumber: int, keyword: string, sp1: string, date: string, sp2: string,
                             account: string, sp3: string, a: Amount)
    requires keyword != [] && forall i :: 0 <= i < |keyword| ==> !IsSpace(keyword[i])
    requires sp1 != [] && forall i :: 0 <= i < |sp1| ==> IsSpace(sp1[i])
    requires sp2 != [] && forall i :: 0 <= i < |sp2| ==> IsSpace(sp2[i])
    requires sp3 != [] && forall i :: 0 <= i < |sp3| ==> IsSpace(sp3[i])
    requires date != [] && forall i :: 0 <= i < |date| ==> !IsSpace(date[i])
    requires account != [] && forall i :: 0 <= i < |account| ==> !IsSpace(account[i])
    requires dp.valid(date) && IsValidAccountString(account)
    requires a.Nil? || a.units == DefaultUnits
    ensures FormatAmount(a).Ok?
    ensures Tokens(Strip(keyword + sp1 + date + sp2 + account + sp3 + FormatAmount(a).value))
         == [keyword, date, account, FormatAmount(a).value]
    ensures ParseBalanceVerify(dp, lineNumber, keyword + sp1 + date + sp2 + account + sp3 + FormatAmount(a).value, false)
         == Ok(Verification(date, account, a))
  {
    FormatParseWithoutDollar(a);
    FormatAmountChars(a);
    var f := FormatAmount(a).value;
    assert forall i :: 0 <= i < |f| ==> !IsSpace(f[i]) by {
      forall i | 0 <= i < |f| ensures !IsSpace(f[i]) {
        assert AmountChar(f[i]);
      }
    }
    FourWords(keyword, sp1, date, sp2, account, sp3, f);
  }

  /** A verification written as `VERIFY-BALANCE`, its date, its account and its formatted
      amount, separated by whitespace, is recognised as one and reads back as that date (as
      written), account and amount (the signs left as written). */
  lemma VerifyLineRoundTrip(dp: DateParser, lineNumber: int, sp1: string, date: string, sp2: string,
                            account: string, sp3: string, a: Amount)
    requires sp1 != [] && forall i :: 0 <= i < |sp1| ==> IsSpace(sp1[i])
    requires sp2 != [] && forall i :: 0 <= i < |sp2| ==> IsSpace(sp2[i])
    requires sp3 != [] && forall i :: 0 <= i < |sp3| ==> IsSpace(sp3[i])
    requires date != [] && forall i :: 0 <= i < |date| ==> !IsSpace(date[i])
    requires account != [] && forall i :: 0 <= i < |account| ==> !IsSpace(account[i])
    requires dp.valid(date) && IsValidAccountString(account)
    requires a.Nil? || a.units == DefaultUnits
    ensures FormatAmount(a).Ok?
    ensures IsBalanceVerifyLine("VERIFY-BALANCE" + sp1 + date + sp2 + account + sp3 + FormatAmount(a).value)
    ensures ParseBalanceVerify(dp, lineNumber, "VERIFY-BALANCE" + sp1 + date + sp2 + account + sp3 + FormatAmount(a).value, false)
         == Ok(Verification(date, account, a))
  {
    VerifyKeyword();
    VerifyWordsRoundTrip(dp, lineNumber, "VERIFY-BALANCE", sp1, date, sp2, account, sp3, a);
  }

  /** is_balance_verify_line: the first word is `VERIFY-BALANCE` in any case. */
  predicate IsBalanceVerifyLine(line: string) {
    var items := Tokens(Strip(line));
    |items| > 0 && Upper(items[0]) == "VERIFY-BALANCE"
  }

  /** A line as the parser sees it: stripped, and empty when it starts with `%` or `#`. */
  function Cleaned(line: string): string {
    var stripped := Strip(line);
    if StartsWith(stripped, "%") || StartsWith(stripped, "#") then "" else stripped
  }

  /** Cleaning a cleaned line changes nothing. */
  lemma CleanedIdempotent(line: string)
    ensures Cleaned(Cleaned(line)) == Cleaned(line)
  {
    StripIdempotent(line);
  }

  // ---------------------------------------------------------------- the state machine

  /** The line functions parse_transactions calls: the cleaning of a line, the test for a
      verification line, and the readers of verifications, headers and postings. The loop is
      stated over any such readers; JournalReader supplies the ledger's own. */
  datatype Reader = Reader(
    clean: string -> string,
    isVerify: string -> bool,
    verify: (int, string) -> Result<Verification>,
    header: (int, string) -> Result<Transaction>,
    posting: (int, string) -> Result<Posting>)

  function JournalReader(dp: DateParser, adjustSigns: bool): Reader {
    Reader(Cleaned, IsBalanceVerifyLine,
           (n, l) => ParseBalanceVerify(dp, n, l, adjustSigns),
           (n, l) => ParseFirstLine(dp, n, l),
           (n, l) => ParsePosting(n, l, adjustSigns))
  }

  /** The parser's variables between two lines: the finished transactions and verifications,
      the open transaction (Python's empty dict is None) and its pending postings. */
  datatype State = State(transactions: seq<Transaction>, verifications: seq<Verification>,
                         open: Option<Transaction>, postings: seq<Posting>)

  const Start: State := State([], [], None, [])

  /** Postings are only pending while a transaction is open. */
  predicate Sane(st: State) {
    st.open.None? ==> st.postings == []
  }

  /** What a blank line, and the end of input, do: an open transaction takes its pending
      postings and is finished; with none open nothing happens. */
  function Close(st: State): (r: State)
    ensures r.open.None? && r.verifications == st.verifications
    ensures Sane(st) ==> Sane(r)
  {
    if st.open.Some? then State(st.transactions + [st.open.value.(postings := st.postings)], st.verifications, None, [])
    else st
  }

  /** One iteration of parse_transactions on the line numbered `lineNumber`: a blank line
      closes, a verification line is collected, otherwise the line is a header when no
      transaction is open and a posting when one is. */
  function Step(rd: Reader, st: State, lineNumber: int, line: string): Result<State> {
    var l := rd.clean(line);
    if |l| == 0 then Ok(Close(st))
    else if rd.isVerify(l) then
      var v :- rd.verify(lineNumber, l);
      Ok(st.(verifications := st.verifications + [v]))
    else if st.open.None? then
      var h :- rd.header(lineNumber, l);
      Ok(st.(open := Some(h)))
    else
      var p :- rd.posting(lineNumber, l);
      Ok(st.(postings := st.postings + [p]))
  }

  /** The loop of parse_transactions from state `st`, over the lines after the first `consumed`;
      the first line that cannot be read stops it with its error. */
  function RunFrom(rd: Reader, st: State, lines: seq<string>, consumed: nat): Result<State>
    decreases |lines|
  {
    if lines == [] then Ok(st)
    else
      var st' :- Step(rd, st, consumed + 1, lines[0]);
      RunFrom(rd, st', lines[1..], consumed + 1)
  }

  /** The result of parse_transactions: transactions and verifications in file order. */
  datatype Parsed = Parsed(transactions: seq<Transaction>, verifications: seq<Verification>)

  /** After the last line the open transaction is flushed. */
  function Finish(r: Result<State>): Result<Parsed> {
    var st :- r;
    var c := Close(st);
    Ok(Parsed(c.transactions, c.verifications))
  }

  /** The whole loop of parse_transactions and the final flush, over the line readers `rd`. */
  function Run(rd: Reader, lines: seq<string>): Result<Parsed> {
    Finish(RunFrom(rd, Start, lines, 0))
  }

  function ParseJournal(dp: DateParser, adjustSigns: bool, lines: seq<string>): Result<Parsed> {
    Run(JournalReader(dp, adjustSigns), lines)
  }

  lemma RunFromStep(rd: Reader, st: State, lines: seq<string>, k: nat)
    requires k < |lines|
    ensures RunFrom(rd, st, lines[k..], k)
         == match Step(rd, st, k + 1, lines[k])
            case Err(e) => Err(e)
            case Ok(st') => RunFrom(rd, st', lines[k + 1..], k + 1)
  {
    assert lines[k..][1..] == lines[k + 1..];
  }

  /** One iteration of the loop of parse_transactions: the line is stripped, a comment
      becomes blank, and the blank line, verification, header or posting is handled. */
  method ReadLine(dp: DateParser, adjustSigns: bool, st: State, lineNumber: int, raw: string)
    returns (r: Result<State>)
    ensures r == Step(JournalReader(dp, adjustSigns), st, lineNumber, raw)
  {
    var line := Strip(raw);
    if StartsWith(line, "%") || StartsWith(line, "#") {
      line := "";
    }
    if |line| == 0 {
      if st.open.Some? {
        return Ok(State(st.transactions + [st.open.value.(postings := st.postings)], st.verifications, None, []));
      }
      return Ok(st);
    } else if IsBalanceVerifyLine(line) {
      var v := ParseBalanceVerify(dp, lineNumber, line, adjustSigns);
      if v.Err? {
        return Err(v.error);
      }
      return Ok(st.(verifications := st.verifications + [v.value]));
    } else if st.open.None? {
      var h := ParseFirstLine(dp, lineNumber, line);
      if h.Err? {
        return Err(h.error);
      }
      return Ok(st.(open := Some(h.value)));
    } else {
      var p := ParsePosting(lineNumber, line, adjustSigns);
      if p.Err? {
        return Err(p.error);
      }
      return Ok(st.(postings := st.postings + [p.value]));
    }
  }

  /** parse_transactions: reads the lines in order, stopping at the first error. */
  method ParseTransactions(dp: DateParser, lines: seq<string>, adjustSigns: bool) returns (r: Result<Parsed>)
    ensures r == ParseJournal(dp, adjustSigns, lines)
  {
    ghost var rd := JournalReader(dp, adjustSigns);
    var st := Start;
    var lineCount := 0;
    while lineCount < |lines|
      invariant 0 <= lineCount <= |lines|
      invariant ParseJournal(dp, adjustSigns, lines) == Finish(RunFrom(rd, st, lines[lineCount..], lineCount))
    {
      RunFromStep(rd, st, lines, lineCount);
      var next := ReadLine(dp, adjustSigns, st, lineCount + 1, lines[lineCount]);
      if next.Err? {
        return Err(next.error);
      }
      st := next.value;
      lineCount := lineCount + 1;
    }
    assert lines[lineCount..] == [];
    if st.open.Some? {
      st := Close(st);
    }
    r := Ok(Parsed(st.transactions, st.verifications));
  }

  // ---------------------------------------------------------------- properties of the parser

  /** Headers carry their line number and no postings yet; postings carry their line number. */
  ghost predicate Numbered(rd: Reader) {
    && (forall n, l :: rd.header(n, l).Ok? ==> rd.header(n, l).value.line == n && rd.header(n, l).value.postings == [])
    && (forall n, l :: rd.posting(n, l).Ok? ==> rd.posting(n, l).value.line == n)
  }

  lemma JournalReaderNumbered(dp: DateParser, adjustSigns: bool)
    ensures Numbered(JournalReader(dp, adjustSigns))
  {
  }

  /** The line numbers of the postings, in order. */
  function PostingLines(ps: seq<Posting>): seq<int> {
    if ps == [] then [] else PostingLines(ps[..|ps| - 1]) + [ps[|ps| - 1].line]
  }

  /** The line numbers the transactions were read from: each header, then its postings. */
  function LineNumbers(ts: seq<Transaction>): seq<int> {
    if ts == [] then []
    else LineNumbers(ts[..|ts| - 1]) + ([ts[|ts| - 1].line] + PostingLines(ts[|ts| - 1].postings))
  }

  lemma LineNumbersSnoc(ts: seq<Transaction>, t: Transaction)
    ensures LineNumbers(ts + [t]) == LineNumbers(ts) + ([t.line] + PostingLines(t.postings))
  {
    assert (ts + [t])[..|ts|] == ts;
  }

  lemma PostingLinesSnoc(ps: seq<Posting>, p: Posting)
    ensures PostingLines(ps + [p]) == PostingLines(ps) + [p.line]
  {
    assert (ps + [p])[..|ps|] == ps;
  }

  /** A line that becomes a header or a posting: not blank, not a comment, not a verification. */
  predicate IsRecord(rd: Reader, line: string) {
    rd.clean(line) != [] && !rd.isVerify(rd.clean(line))
  }

  /** The 1-based numbers of the record lines among `lines`, which follow `consumed` others. */
  function RecordLines(rd: Reader, lines: seq<string>, consumed: nat): seq<int>
    decreases |lines|
  {
    if lines == [] then []
    else (if IsRecord(rd, lines[0]) then [consumed + 1] else []) + RecordLines(rd, lines[1..], consumed + 1)
  }

  /** A header opens a transaction that so far occupies only its own line. */
  lemma OpenLines(st: State, h: Transaction)
    requires st.open.None? && st.postings == [] && h.postings == []
    ensures LineNumbers(Close(st.(open := Some(h))).transactions) == LineNumbers(Close(st).transactions) + [h.line]
  {
    assert h.(postings := st.postings) == h;
    LineNumbersSnoc(st.transactions, h);
    assert [h.line] + PostingLines(h.postings) == [h.line];
  }

  /** A posting adds its line after those of the open transaction. */
  lemma PendLines(st: State, p: Posting)
    requires st.open.Some?
    ensures LineNumbers(Close(st.(postings := st.postings + [p])).transactions)
         == LineNumbers(Close(st).transactions) + [p.line]
  {
    var o := st.open.value;
    LineNumbersSnoc(st.transactions, o.(postings := st.postings));
    LineNumbersSnoc(st.transactions, o.(postings := st.postings + [p]));
    PostingLinesSnoc(st.postings, p);
    AppendAssoc([o.line], PostingLines(st.postings), [p.line]);
    AppendAssoc(LineNumbers(st.transactions), [o.line] + PostingLines(st.postings), [p.line]);
  }

  /** One line adds its own number to the line numbers of the transactions, if it is a record. */
  lemma StepLines(rd: Reader, st: State, n: int, line: string)
    requires Numbered(rd) && Sane(st) && Step(rd, st, n, line).Ok?
    ensures Sane(Step(rd, st, n, line).value)
    ensures LineNumbers(Close(Step(rd, st, n, line).value).transactions)
         == LineNumbers(Close(st).transactions) + (if IsRecord(rd, line) then [n] else [])
  {
    var l := rd.clean(line);
    if |l| == 0 {
      assert Close(Close(st)) == Close(st);
    } else if rd.isVerify(l) {
    } else if st.open.None? {
      OpenLines(st, rd.header(n, l).value);
    } else {
      PendLines(st, rd.posting(n, l).value);
    }
  }

  lemma {:induction false} RunFromLines(rd: Reader, st: State, lines: seq<string>, consumed: nat)
    requires Numbered(rd) && Sane(st) && RunFrom(rd, st, lines, consumed).Ok?
    ensures Sane(RunFrom(rd, st, lines, consumed).value)
    ensures LineNumbers(Close(RunFrom(rd, st, lines, consumed).value).transactions)
         == LineNumbers(Close(st).transactions) + RecordLines(rd, lines, consumed)
    decreases |lines|
  {
    if lines != [] {
      var st' := Step(rd, st, consumed + 1, lines[0]).value;
      StepLines(rd, st, consumed + 1, lines[0]);
      RunFromLines(rd, st', lines[1..], consumed + 1);
      AppendAssoc(LineNumbers(Close(st).transactions), if IsRecord(rd, lines[0]) then [consumed + 1] else [],
                  RecordLines(rd, lines[1..], consumed + 1));
    }
  }

  /** The record line numbers are increasing and lie among the lines they were read from. */
  lemma {:induction false} RecordLinesOrdered(rd: Reader, lines: seq<string>, consumed: nat)
    ensures forall i :: 0 <= i < |RecordLines(rd, lines, consumed)| ==>
              consumed < RecordLines(rd, lines, consumed)[i] <= consumed + |lines|
    ensures forall i, j :: 0 <= i < j < |RecordLines(rd, lines, consumed)| ==>
              RecordLines(rd, lines, consumed)[i] < RecordLines(rd, lines, consumed)[j]
    decreases |lines|
  {
    if lines != [] {
      RecordLinesOrdered(rd, lines[1..], consumed + 1);
      var rest := RecordLines(rd, lines[1..], consumed + 1);
      var head := if IsRecord(rd, lines[0]) then [consumed + 1] else [];
      var r := RecordLines(rd, lines, consumed);
      assert r == head + rest;
      forall i | 0 <= i < |r| ensures consumed < r[i] <= consumed + |lines| {
        if i >= |head| { assert r[i] == rest[i - |head|]; }
      }
      forall i, j | 0 <= i < j < |r| ensures r[i] < r[j] {
        assert r[j] == rest[j - |head|];
        if i >= |head| { assert r[i] == rest[i - |head|]; }
      }
    }
  }

  /** Every header and every posting comes from its own record line, numbered from 1 by its
      place among all lines (blank, comment and verification lines included), and they come
      out in file order. */
  lemma RunLines(rd: Reader, lines: seq<string>)
    requires Numbered(rd) && Run(rd, lines).Ok?
    ensures LineNumbers(Run(rd, lines).value.transactions) == RecordLines(rd, lines, 0)
  {
    RunFromLines(rd, Start, lines, 0);
  }

  /** The same for the journal's own line readers. */
  lemma ParseJournalLines(dp: DateParser, adjustSigns: bool, lines: seq<string>)
    requires ParseJournal(dp, adjustSigns, lines).Ok?
    ensures LineNumbers(ParseJournal(dp, adjustSigns, lines).value.transactions)
         == RecordLines(JournalReader(dp, adjustSigns), lines, 0)
  {
    JournalReaderNumbered(dp, adjustSigns);
    RunLines(JournalReader(dp, adjustSigns), lines);
  }

  /** The verifications of `lines`, in order, wherever they stand. */
  function VerifyRecords(rd: Reader, lines: seq<string>, consumed: nat): seq<Verification>
    decreases |lines|
  {
    if lines == [] then []
    else
      var l := rd.clean(lines[0]);
      var v := rd.verify(consumed + 1, l);
      (if l != [] && rd.isVerify(l) && v.Ok? then [v.value] else []) + VerifyRecords(rd, lines[1..], consumed + 1)
  }

  lemma {:induction false} RunFromVerifications(rd: Reader, st: State, lines: seq<string>, consumed: nat)
    requires RunFrom(rd, st, lines, consumed).Ok?
    ensures RunFrom(rd, st, lines, consumed).value.verifications == st.verifications + VerifyRecords(rd, lines, consumed)
    decreases |lines|
  {
    if lines != [] {
      var st' := Step(rd, st, consumed + 1, lines[0]).value;
      RunFromVerifications(rd, st', lines[1..], consumed + 1);
      var l := rd.clean(lines[0]);
      var v := rd.verify(consumed + 1, l);
      var head := if l != [] && rd.isVerify(l) && v.Ok? then [v.value] else [];
      assert st'.verifications == st.verifications + head;
      AppendAssoc(st.verifications, head, VerifyRecords(rd, lines[1..], consumed + 1));
    }
  }

  /** The verifications are those of the VERIFY-BALANCE lines, in file order, whether they
      stand inside a transaction's block or between blocks. */
  lemma RunVerifications(rd: Reader, lines: seq<string>)
    requires Run(rd, lines).Ok?
    ensures Run(rd, lines).value.verifications == VerifyRecords(rd, lines, 0)
  {
    RunFromVerifications(rd, Start, lines, 0);
  }

  /** A VERIFY-BALANCE line leaves the open transaction and its pending postings alone. */
  lemma VerifyKeepsOpen(rd: Reader, st: State, n: int, line: string)
    requires rd.clean(line) != [] && rd.isVerify(rd.clean(line))
    requires Step(rd, st, n, line).Ok?
    ensures Step(rd, st, n, line) == Ok(st.(verifications := st.verifications + [rd.verify(n, rd.clean(line)).value]))
  {
  }

  /** Every line cleaned. */
  function CleanAll(rd: Reader, lines: seq<string>): (r: seq<string>)
    ensures |r| == |lines|
  {
    if lines == [] then [] else [rd.clean(lines[0])] + CleanAll(rd, lines[1..])
  }

  /** Cleaning a cleaned line changes nothing. */
  ghost predicate CleanIdempotent(rd: Reader) {
    forall l :: rd.clean(rd.clean(l)) == rd.clean(l)
  }

  lemma JournalCleanIdempotent(dp: DateParser, adjustSigns: bool)
    ensures CleanIdempotent(JournalReader(dp, adjustSigns))
  {
    forall l ensures Cleaned(Cleaned(l)) == Cleaned(l) {
      CleanedIdempotent(l);
    }
  }

  lemma {:induction false} RunFromCleaned(rd: Reader, st: State, lines: seq<string>, consumed: nat)
    requires CleanIdempotent(rd)
    ensures RunFrom(rd, st, CleanAll(rd, lines), consumed) == RunFrom(rd, st, lines, consumed)
    decreases |lines|
  {
    if lines != [] {
      var cl := CleanAll(rd, lines);
      assert cl[0] == rd.clean(lines[0]) && cl[1..] == CleanAll(rd, lines[1..]);
      assert Step(rd, st, consumed + 1, cl[0]) == Step(rd, st, consumed + 1, lines[0]);
      match Step(rd, st, consumed + 1, lines[0])
      case Err(_) =>
      case Ok(st') => RunFromCleaned(rd, st', lines[1..], consumed + 1);
    }
  }

  /** Surrounding whitespace does not matter and a line starting with `%` or `#` reads as a
      blank line: the journal parses as its cleaned lines do. */
  lemma ParseJournalCleaned(dp: DateParser, adjustSigns: bool, lines: seq<string>)
    ensures ParseJournal(dp, adjustSigns, CleanAll(JournalReader(dp, adjustSigns), lines)) == ParseJournal(dp, adjustSigns, lines)
  {
    JournalCleanIdempotent(dp, adjustSigns);
    RunFromCleaned(JournalReader(dp, adjustSigns), Start, lines, 0);
  }

  lemma {:induction false} RunFromBlank(rd: Reader, lines: seq<string>, consumed: nat)
    requires forall i :: 0 <= i < |lines| ==> rd.clean(lines[i]) == []
    ensures RunFrom(rd, Start, lines, consumed) == Ok(Start)
    decreases |lines|
  {
    if lines != [] {
      assert rd.clean(lines[0]) == [];
      assert forall i :: 0 <= i < |lines[1..]| ==> rd.clean(lines[1..][i]) == [] by {
        forall i | 0 <= i < |lines[1..]| ensures rd.clean(lines[1..][i]) == [] {
          assert lines[1..][i] == lines[i + 1];
        }
      }
      RunFromBlank(rd, lines[1..], consumed + 1);
    }
  }

  /** A journal of blank and comment lines holds nothing. */
  lemma RunBlank(rd: Reader, lines: seq<string>)
    requires forall i :: 0 <= i < |lines| ==> rd.clean(lines[i]) == []
    ensures Run(rd, lines) == Ok(Parsed([], []))
  {
    RunFromBlank(rd, lines, 0);
  }

  /** A header on the last line still gives a transaction, with no postings: the open
      transaction is flushed at the end of the input. */
  lemma RunHeaderOnly(rd: Reader, header: string, t: Transaction)
    requires Numbered(rd)
    requires rd.clean(header) != [] && !rd.isVerify(rd.clean(header))
    requires rd.header(1, rd.clean(header)) == Ok(t)
    ensures Run(rd, [header]) == Ok(Parsed([t], []))
    ensures t.postings == [] && t.line == 1
  {
    assert t.postings == [] && t.line == 1;
    var s1 := Start.(open := Some(t));
    assert Step(rd, Start, 1, header) == Ok(s1);
    RunFromStep(rd, Start, [header], 0);
    assert [header][0..] == [header] && [header][1..] == [];
    assert RunFrom(rd, s1, [], 1) == Ok(s1);
    assert t.(postings := []) == t;
    assert Close(s1) == State([t], [], None, []);
  }

  /** A VERIFY-BALANCE line between two postings neither ends the transaction nor becomes part
      of it: the header, first posting, verification and second posting give one transaction
      with both postings, and the verification beside it. */
  lemma RunVerifyInsideBlock(rd: Reader, lines: seq<string>,
                             t: Transaction, q1: Posting, w: Verification, q2: Posting)
    requires |lines| == 4
    requires forall i :: 0 <= i < 4 ==> rd.clean(lines[i]) != [] && (rd.isVerify(rd.clean(lines[i])) <==> i == 2)
    requires rd.header(1, rd.clean(lines[0])) == Ok(t)
    requires rd.posting(2, rd.clean(lines[1])) == Ok(q1)
    requires rd.verify(3, rd.clean(lines[2])) == Ok(w)
    requires rd.posting(4, rd.clean(lines[3])) == Ok(q2)
    ensures Run(rd, lines) == Ok(Parsed([t.(postings := [q1, q2])], [w]))
  {
    var s1 := Start.(open := Some(t));
    var s2 := s1.(postings := [q1]);
    var s3 := s2.(verifications := [w]);
    var s4 := s3.(postings := [q1, q2]);
    assert rd.clean(lines[0]) != [] && !rd.isVerify(rd.clean(lines[0]));
    assert Step(rd, Start, 1, lines[0]) == Ok(s1);
    assert rd.clean(lines[1]) != [] && !rd.isVerify(rd.clean(lines[1]));
    assert s1.postings + [q1] == [q1];
    assert Step(rd, s1, 2, lines[1]) == Ok(s2);
    assert rd.clean(lines[2]) != [] && rd.isVerify(rd.clean(lines[2]));
    assert s2.verifications + [w] == [w];
    assert Step(rd, s2, 3, lines[2]) == Ok(s3);
    assert rd.clean(lines[3]) != [] && !rd.isVerify(rd.clean(lines[3]));
    assert s3.postings + [q2] == [q1, q2];
    assert Step(rd, s3, 4, lines[3]) == Ok(s4);
    assert RunFrom(rd, s4, lines[4..], 4) == Ok(s4);
    assert Close(s4) == State([t.(postings := [q1, q2])], [w], None, []);
    RunFromStep(rd, Start, lines, 0);
    RunFromStep(rd, s1, lines, 1);
    RunFromStep(rd, s2, lines, 2);
    RunFromStep(rd, s3, lines, 3);
    assert lines[0..] == lines && lines[4..] == [];
  }

  // ---------------------------------------------------------------- the same, for the journal's readers

  lemma ParseJournalVerifications(dp: DateParser, adjustSigns: bool, lines: seq<string>)
    requires ParseJournal(dp, adjustSigns, lines).Ok?
    ensures ParseJournal(dp, adjustSigns, lines).value.verifications
         == VerifyRecords(JournalReader(dp, adjustSigns), lines, 0)
  {
    RunVerifications(JournalReader(dp, adjustSigns), lines);
  }

  lemma BlankJournal(dp: DateParser, adjustSigns: bool, lines: seq<string>)
    requires forall i :: 0 <= i < |lines| ==> Cleaned(lines[i]) == []
    ensures ParseJournal(dp, adjustSigns, lines) == Ok(Parsed([], []))
  {
    RunBlank(JournalReader(dp, adjustSigns), lines);
  }

  lemma HeaderOnlyJournal(dp: DateParser, adjustSigns: bool, header: string, t: Transaction)
    requires Cleaned(header) != [] && !IsBalanceVerifyLine(Cleaned(header))
    requires ParseFirstLine(dp, 1, Cleaned(header)) == Ok(t)
    ensures ParseJournal(dp, adjustSigns, [header]) == Ok(Parsed([t], []))
    ensures t.postings == [] && t.line == 1
  {
    JournalReaderNumbered(dp, adjustSigns);
    RunHeaderOnly(JournalReader(dp, adjustSigns), header, t);
  }

  lemma VerifyInsideBlock(dp: DateParser, adjustSigns: bool, lines: seq<string>,
                          t: Transaction, q1: Posting, w: Verification, q2: Posting)
    requires |lines| == 4
    requires forall i :: 0 <= i < 4 ==> Cleaned(lines[i]) != [] && (IsBalanceVerifyLine(Cleaned(lines[i])) <==> i == 2)
    requires ParseFirstLine(dp, 1, Cleaned(lines[0])) == Ok(t)
    requires ParsePosting(2, Cleaned(lines[1]), adjustSigns) == Ok(q1)
    requires ParseBalanceVerify(dp, 3, Cleaned(lines[2]), adjustSigns) == Ok(w)
    requires ParsePosting(4, Cleaned(lines[3]), adjustSigns) == Ok(q2)
    ensures ParseJournal(dp, adjustSigns, lines) == Ok(Parsed([t.(postings := [q1, q2])], [w]))
  {
    RunVerifyInsideBlock(JournalReader(dp, adjustSigns), lines, t, q1, w, q2);
  }
}
