/** The records a journal is parsed into, the `affects` test and the filters built on it,
    and the balance law: a transaction balances when, in every unit, the quantities of
    its postings, each multiplied by its account's sign, sum to zero. */
module Journal {
  import opened Text
  import opened Results
  import opened Accounts
  import opened Amounts

  datatype Posting = Posting(line: int, account: string, amount: Amount)

  datatype Transaction = Transaction(line: int, date: string, description: string, postings: seq<Posting>)

  /** A `VERIFY-BALANCE` directive; its date is kept as written. */
  datatype Verification = Verification(date: string, account: string, amount: Amount)

  /** affects, for a posting: the named account is the posting's account or an ancestor of it. */
  predicate AffectsPosting(p: Posting, account: string) {
    ContainsAccount(account, p.account)
  }

  /** affects, for a transaction: some posting of it is affected. */
  predicate AffectsTransaction(t: Transaction, account: string) {
    exists i :: 0 <= i < |t.postings| && AffectsPosting(t.postings[i], account)
  }

  /** A transaction affecting an account affects every ancestor of that account. */
  lemma AffectsAncestor(t: Transaction, a: string, b: string)
    requires ContainsAccount(a, b) && AffectsTransaction(t, b)
    ensures AffectsTransaction(t, a)
  {
    var i :| 0 <= i < |t.postings| && AffectsPosting(t.postings[i], b);
    ContainsTransitive(a, b, t.postings[i].account);
  }

  /** filter_by_account on postings: those affecting the account, in their order. */
  function FilterPostings(ps: seq<Posting>, account: string): (r: seq<Posting>)
    ensures |r| <= |ps|
    ensures forall i :: 0 <= i < |r| ==> AffectsPosting(r[i], account) && r[i] in ps
    ensures forall i :: 0 <= i < |ps| && AffectsPosting(ps[i], account) ==> ps[i] in r
  {
    if ps == [] then []
    else (if AffectsPosting(ps[0], account) then [ps[0]] else []) + FilterPostings(ps[1..], account)
  }

  /** filter_by_account on transactions: those affecting the account, in their order. */
  function FilterTransactions(ts: seq<Transaction>, account: string): (r: seq<Transaction>)
    ensures |r| <= |ts|
    ensures forall i :: 0 <= i < |r| ==> AffectsTransaction(r[i], account) && r[i] in ts
    ensures forall i :: 0 <= i < |ts| && AffectsTransaction(ts[i], account) ==> ts[i] in r
  {
    if ts == [] then []
    else (if AffectsTransaction(ts[0], account) then [ts[0]] else []) + FilterTransactions(ts[1..], account)
  }

  /** Filtering by an account and then by one of its descendants is filtering by the descendant. */
  lemma {:induction false} FilterPostingsNarrow(ps: seq<Posting>, a: string, b: string)
    requires ContainsAccount(a, b)
    ensures FilterPostings(FilterPostings(ps, a), b) == FilterPostings(ps, b)
  {
    if ps != [] {
      FilterPostingsNarrow(ps[1..], a, b);
      if AffectsPosting(ps[0], b) {
        ContainsTransitive(a, b, ps[0].account);
      }
      var head := if AffectsPosting(ps[0], a) then [ps[0]] else [];
      FilterPostingsAppend(head, FilterPostings(ps[1..], a), b);
      assert head == [] || (head == [ps[0]] && head[1..] == []);
    }
  }

  lemma {:induction false} FilterPostingsAppend(x: seq<Posting>, y: seq<Posting>, account: string)
    ensures FilterPostings(x + y, account) == FilterPostings(x, account) + FilterPostings(y, account)
  {
    if x == [] {
      assert x + y == y;
    } else {
      assert (x + y)[1..] == x[1..] + y;
      FilterPostingsAppend(x[1..], y, account);
    }
  }

  lemma {:induction false} FilterTransactionsAppend(x: seq<Transaction>, y: seq<Transaction>, account: string)
    ensures FilterTransactions(x + y, account) == FilterTransactions(x, account) + FilterTransactions(y, account)
  {
    if x == [] {
      assert x + y == y;
    } else {
      assert (x + y)[1..] == x[1..] + y;
      FilterTransactionsAppend(x[1..], y, account);
    }
  }

  /** The same for transactions: a transaction affecting the descendant affects the ancestor. */
  lemma {:induction false} FilterTransactionsNarrow(ts: seq<Transaction>, a: string, b: string)
    requires ContainsAccount(a, b)
    ensures FilterTransactions(FilterTransactions(ts, a), b) == FilterTransactions(ts, b)
  {
    if ts != [] {
      FilterTransactionsNarrow(ts[1..], a, b);
      if AffectsTransaction(ts[0], b) {
        AffectsAncestor(ts[0], a, b);
      }
      var head := if AffectsTransaction(ts[0], a) then [ts[0]] else [];
      FilterTransactionsAppend(head, FilterTransactions(ts[1..], a), b);
      assert head == [] || (head == [ts[0]] && head[1..] == []);
    }
  }

  // ---------------------------------------------------------------- balance law

  /** A posting can take part in balance_amounts: its root is known and its amount has a unit. */
  predicate Bookable(p: Posting) {
    SignAccount(p.account).Ok? && p.amount.Amount?
  }

  /** `balances[units] += q` on a defaultdict(int). */
  function Add(b: Balances, units: string, q: int): Balances {
    b[units := (if units in b then b[units] else 0) + q]
  }

  /** The accumulation of balance_amounts, continued from `acc` over `ps`. */
  function TotalsFrom(acc: Balances, ps: seq<Posting>): Result<Balances>
    decreases |ps|
  {
    if ps == [] then Ok(acc)
    else if SignAccount(ps[0].account).Err? then Err(SignAccount(ps[0].account).error)
    else if ps[0].amount.Nil? then Err(NoUnits)
    else TotalsFrom(Add(acc, ps[0].amount.units, ps[0].amount.quantity * SignAccount(ps[0].account).value), ps[1..])
  }

  /** The error balance_amounts raises on a posting it cannot book: the sign is looked up first. */
  function BookingError(p: Posting): Error {
    if SignAccount(p.account).Err? then SignAccount(p.account).error else NoUnits
  }

  function Totals(ps: seq<Posting>): Result<Balances> {
    TotalsFrom(map[], ps)
  }

  /** The reference sum: signed quantities of the postings in `units`. */
  function UnitSum(ps: seq<Posting>, units: string): int
    requires forall i :: 0 <= i < |ps| ==> Bookable(ps[i])
  {
    if ps == [] then 0
    else
      assert Bookable(ps[0]);
      (if ps[0].amount.units == units then ps[0].amount.quantity * SignAccount(ps[0].account).value else 0)
      + UnitSum(ps[1..], units)
  }

  function UnitsOf(ps: seq<Posting>): set<string> {
    set i | 0 <= i < |ps| && ps[i].amount.Amount? :: ps[i].amount.units
  }

  lemma {:induction false} TotalsFromOk(acc: Balances, ps: seq<Posting>)
    ensures TotalsFrom(acc, ps).Ok? <==> forall i :: 0 <= i < |ps| ==> Bookable(ps[i])
    decreases |ps|
  {
    if ps != [] {
      var rest := ps[1..];
      if Bookable(ps[0]) {
        var acc' := Add(acc, ps[0].amount.units, ps[0].amount.quantity * SignAccount(ps[0].account).value);
        assert TotalsFrom(acc, ps) == TotalsFrom(acc', rest);
        TotalsFromOk(acc', rest);
        if forall i :: 0 <= i < |rest| ==> Bookable(rest[i]) {
          forall i | 0 <= i < |ps| ensures Bookable(ps[i]) {
            if i > 0 { assert ps[i] == rest[i - 1]; }
          }
        }
        if forall i :: 0 <= i < |ps| ==> Bookable(ps[i]) {
          forall i | 0 <= i < |rest| ensures Bookable(rest[i]) {
            assert rest[i] == ps[i + 1];
          }
        }
      } else {
        assert TotalsFrom(acc, ps).Err?;
      }
    }
  }

  lemma {:induction false} UnitsOfCons(ps: seq<Posting>)
    requires ps != [] && ps[0].amount.Amount?
    ensures UnitsOf(ps) == {ps[0].amount.units} + UnitsOf(ps[1..])
  {
    var rest := ps[1..];
    forall u | u in UnitsOf(ps) ensures u in {ps[0].amount.units} + UnitsOf(rest) {
      var i :| 0 <= i < |ps| && ps[i].amount.Amount? && ps[i].amount.units == u;
      if i > 0 { assert rest[i - 1] == ps[i]; }
    }
    forall u | u in UnitsOf(rest) ensures u in UnitsOf(ps) {
      var i :| 0 <= i < |rest| && rest[i].amount.Amount? && rest[i].amount.units == u;
      assert ps[i + 1] == rest[i];
    }
  }

  lemma UnitSumCons(ps: seq<Posting>)
    requires ps != [] && forall i :: 0 <= i < |ps| ==> Bookable(ps[i])
    ensures forall i :: 0 <= i < |ps[1..]| ==> Bookable(ps[1..][i])
    ensures forall u :: UnitSum(ps, u)
              == (if ps[0].amount.units == u then ps[0].amount.quantity * SignAccount(ps[0].account).value else 0)
                 + UnitSum(ps[1..], u)
  {
    forall i | 0 <= i < |ps[1..]| ensures Bookable(ps[1..][i]) {
      assert ps[1..][i] == ps[i + 1];
    }
  }

  lemma {:induction false} TotalsFromValue(acc: Balances, ps: seq<Posting>)
    requires forall i :: 0 <= i < |ps| ==> Bookable(ps[i])
    ensures TotalsFrom(acc, ps).Ok?
    ensures TotalsFrom(acc, ps).value.Keys == acc.Keys + UnitsOf(ps)
    ensures forall u :: u in TotalsFrom(acc, ps).value ==>
              TotalsFrom(acc, ps).value[u] == (if u in acc then acc[u] else 0) + UnitSum(ps, u)
    decreases |ps|
  {
    TotalsFromOk(acc, ps);
    if ps == [] {
      assert UnitsOf(ps) == {};
    } else {
      var rest := ps[1..];
      assert Bookable(ps[0]);
      UnitSumCons(ps);
      var q := ps[0].amount.quantity * SignAccount(ps[0].account).value;
      var acc' := Add(acc, ps[0].amount.units, q);
      assert TotalsFrom(acc, ps) == TotalsFrom(acc', rest);
      TotalsFromValue(acc', rest);
      UnitsOfCons(ps);
    }
  }

  /** balance_amounts' result meaning: it fails exactly when some posting has an unknown root or
      a nil amount; otherwise it holds one entry per unit used, the signed sum in that unit. */
  lemma TotalsSum(ps: seq<Posting>)
    ensures Totals(ps).Ok? <==> forall i :: 0 <= i < |ps| ==> Bookable(ps[i])
    ensures Totals(ps).Ok? ==>
              && Totals(ps).value.Keys == UnitsOf(ps)
              && forall u :: u in Totals(ps).value ==> Totals(ps).value[u] == UnitSum(ps, u)
  {
    TotalsFromOk(map[], ps);
    if Totals(ps).Ok? {
      TotalsFromValue(map[], ps);
    }
  }

  /** When balance_amounts fails, it fails with the error of the first posting that cannot be booked. */
  lemma {:induction false} TotalsFirstError(acc: Balances, ps: seq<Posting>, k: nat)
    requires k < |ps| && !Bookable(ps[k])
    requires forall i :: 0 <= i < k ==> Bookable(ps[i])
    ensures TotalsFrom(acc, ps) == Err(BookingError(ps[k]))
    decreases k
  {
    if k > 0 {
      assert Bookable(ps[0]);
      TotalsFirstError(Add(acc, ps[0].amount.units, ps[0].amount.quantity * SignAccount(ps[0].account).value), ps[1..], k - 1);
    }
  }

  /** balance_amounts, with its loop over the postings. */
  method BalanceAmounts(t: Transaction) returns (r: Result<Balances>)
    ensures r == Totals(t.postings)
  {
    var balances: Balances := map[];
    var rest := t.postings;
    while rest != []
      invariant Totals(t.postings) == TotalsFrom(balances, rest)
      decreases |rest|
    {
      var posting := rest[0];
      var sign := SignAccount(posting.account);
      if sign.Err? {
        return Err(sign.error);
      }
      if posting.amount.Nil? {
        return Err(NoUnits);
      }
      var units := posting.amount.units;
      var quantity := posting.amount.quantity;
      balances := balances[units := (if units in balances then balances[units] else 0) + quantity * sign.value];
      rest := rest[1..];
    }
    r := Ok(balances);
  }

  /** Every per-unit total is zero. */
  predicate AllZero(b: Balances) {
    forall u :: u in b ==> b[u] == 0
  }

  /** is_balanced, with its loop over the per-unit totals. */
  method IsBalanced(t: Transaction) returns (r: Result<bool>)
    ensures r.Ok? <==> Totals(t.postings).Ok?
    ensures r.Err? ==> r == Err(Totals(t.postings).error)
    ensures r.Ok? ==> (r.value <==> AllZero(Totals(t.postings).value))
  {
    var balances := BalanceAmounts(t);
    if balances.Err? {
      return Err(balances.error);
    }
    var b := balances.value;
    var todo := b.Keys;
    while todo != {}
      invariant todo <= b.Keys
      invariant forall u :: u in b && u !in todo ==> b[u] == 0
      decreases |todo|
    {
      var u :| u in todo;
      if b[u] != 0 {
        return Ok(false);
      }
      todo := todo - {u};
    }
    r := Ok(true);
  }

  /** The balance law stated on the postings: a transaction balances exactly when every unit's
      signed sum is zero. A transaction without postings balances. */
  lemma BalancedIffUnitSumsZero(t: Transaction)
    requires forall i :: 0 <= i < |t.postings| ==> Bookable(t.postings[i])
    ensures Totals(t.postings).Ok?
    ensures AllZero(Totals(t.postings).value)
            <==> forall u :: u in UnitsOf(t.postings) ==> UnitSum(t.postings, u) == 0
  {
    TotalsSum(t.postings);
  }

  lemma NoPostingsBalanced(t: Transaction)
    requires t.postings == []
    ensures Totals(t.postings) == Ok(map[]) && AllZero(Totals(t.postings).value)
  {
  }

  /** balance_amounts of two bookable postings in the default unit. */
  lemma TwoPostingTotals(p1: Posting, p2: Posting, s1: int, s2: int)
    requires SignAccount(p1.account) == Ok(s1) && SignAccount(p2.account) == Ok(s2)
    requires p1.amount.Amount? && p2.amount.Amount?
    requires p1.amount.units == DefaultUnits && p2.amount.units == DefaultUnits
    ensures Totals([p1, p2]) == Ok(map[DefaultUnits := p1.amount.quantity * s1 + p2.amount.quantity * s2])
  {
    assert [p1, p2][1..] == [p2];
    var q1 := p1.amount.quantity * s1;
    var q2 := p2.amount.quantity * s2;
    assert Add(map[], DefaultUnits, q1) == map[DefaultUnits := q1];
    assert TotalsFrom(map[], [p1, p2]) == TotalsFrom(map[DefaultUnits := q1], [p2]);
    assert [p2][1..] == [];
    assert Add(map[DefaultUnits := q1], DefaultUnits, q2) == map[DefaultUnits := q1 + q2];
    assert TotalsFrom(map[DefaultUnits := q1], [p2]) == TotalsFrom(map[DefaultUnits := q1 + q2], []);
  }

  /** The opening-balance transactions of the unit tests: an asset and an equity posting with the
      same sign do not balance, with opposite signs they do. */
  lemma UnbalancedExample(p1: Posting, p2: Posting)
    requires p1 == Posting(0, "Assets:Bank:Westpac:123456", Amount(DefaultUnits, 22863))
    requires p2 == Posting(0, "Equity:OpeningBalances", Amount(DefaultUnits, -22863))
    ensures Totals([p1, p2]) == Ok(map[DefaultUnits := 45726])
    ensures !AllZero(Totals([p1, p2]).value)
  {
    OpeningSigns();
    TwoPostingTotals(p1, p2, 1, -1);
    assert map[DefaultUnits := 45726][DefaultUnits] != 0;
  }

  lemma BalancedExample(p1: Posting, p2: Posting)
    requires p1 == Posting(0, "Assets:Bank:Westpac:123456", Amount(DefaultUnits, 22863))
    requires p2 == Posting(0, "Equity:OpeningBalances", Amount(DefaultUnits, 22863))
    ensures Totals([p1, p2]) == Ok(map[DefaultUnits := 0])
    ensures AllZero(Totals([p1, p2]).value)
  {
    OpeningSigns();
    TwoPostingTotals(p1, p2, 1, -1);
  }

  /** balance_amounts of the cash and equity postings of 1234 cents each is a zero AUD total. */
  lemma CashEquityExample(p1: Posting, p2: Posting)
    requires p1 == Posting(1, "Assets:Cash", Amount(DefaultUnits, 1234))
    requires p2 == Posting(1, "Equity:OpeningBalances", Amount(DefaultUnits, 1234))
    ensures Totals([p1, p2]) == Ok(map[DefaultUnits := 0])
  {
    OpeningSigns();
    TwoPostingTotals(p1, p2, 1, -1);
  }

  lemma OpeningSigns()
    ensures SignAccount("Assets:Bank:Westpac:123456") == Ok(1)
    ensures SignAccount("Equity:OpeningBalances") == Ok(-1)
    ensures SignAccount("Assets:Cash") == Ok(1)
  {
    BankSign();
    EquitySign();
    CashSign();
  }

  lemma BankSign()
    ensures SignAccount("Assets:Bank:Westpac:123456") == Ok(1)
  {
    var bank := ["Assets", "Bank", "Westpac", "123456"];
    assert Join(bank, ":") == "Assets:Bank:Westpac:123456" by {
      assert bank[1..] == ["Bank", "Westpac", "123456"];
      assert bank[1..][1..] == ["Westpac", "123456"];
      assert bank[1..][1..][1..] == ["123456"];
    }
    assert RootAccountName("Assets:Bank:Westpac:123456") == "ASSETS" by {
      assert Upper("Assets") == "ASSETS";
      assert Regularise("ASSETS") == "ASSETS";
      RootOfPieces("Assets:Bank:Westpac:123456", bank);
    }
    SignAccountCases("Assets:Bank:Westpac:123456");
  }

  lemma EquitySign()
    ensures SignAccount("Equity:OpeningBalances") == Ok(-1)
  {
    var equity := ["Equity", "OpeningBalances"];
    assert Join(equity, ":") == "Equity:OpeningBalances" by {
      assert equity[1..] == ["OpeningBalances"];
    }
    assert RootAccountName("Equity:OpeningBalances") == "EQUITY" by {
      assert Upper("Equity") == "EQUITY";
      assert Regularise("EQUITY") == "EQUITY";
      RootOfPieces("Equity:OpeningBalances", equity);
    }
    SignAccountCases("Equity:OpeningBalances");
  }

  lemma CashSign()
    ensures SignAccount("Assets:Cash") == Ok(1)
  {
    AssetsCashRoot();
    SignAccountCases("Assets:Cash");
  }

  // ---------------------------------------------------------------- ensure_balanced, ensure_date_sorted

  /** One complaint of ensure_balanced: the transaction and its non-zero per-unit totals. */
  datatype Imbalance = Imbalance(line: int, date: string, description: string, amounts: Balances)

  function NonZero(b: Balances): Balances {
    map u | u in b && b[u] != 0 :: b[u]
  }

  /** The complaints of ensure_balanced over `ts`, after those already in `acc`. */
  function OffendersFrom(acc: seq<Imbalance>, ts: seq<Transaction>): Result<seq<Imbalance>>
    decreases |ts|
  {
    if ts == [] then Ok(acc)
    else
      var _ :- Totals(ts[0].postings);
      OffendersFrom(acc + ComplaintOf(ts[0]), ts[1..])
  }

  function Offenders(ts: seq<Transaction>): Result<seq<Imbalance>> {
    OffendersFrom([], ts)
  }

  /** A transaction with a known root and a unit on every posting that balances. */
  predicate Balanced(t: Transaction) {
    Totals(t.postings).Ok? && AllZero(Totals(t.postings).value)
  }

  /** Every transaction can be totalled. */
  predicate AllTotalled(ts: seq<Transaction>) {
    forall i :: 0 <= i < |ts| ==> Totals(ts[i].postings).Ok?
  }

  /** The complaint about one totalled transaction, if it does not balance. */
  function ComplaintOf(t: Transaction): seq<Imbalance>
    requires Totals(t.postings).Ok?
  {
    var b := Totals(t.postings).value;
    if AllZero(b) then [] else [Imbalance(t.line, t.date, t.description, NonZero(b))]
  }

  /** The reference list of complaints: one per transaction that does not balance, in order. */
  function Complaints(ts: seq<Transaction>): seq<Imbalance>
    requires AllTotalled(ts)
  {
    if ts == [] then []
    else
      AllTotalledCons(ts);
      ComplaintOf(ts[0]) + Complaints(ts[1..])
  }

  lemma AllTotalledCons(ts: seq<Transaction>)
    requires ts != []
    ensures AllTotalled(ts) <==> Totals(ts[0].postings).Ok? && AllTotalled(ts[1..])
  {
    var rest := ts[1..];
    if Totals(ts[0].postings).Ok? && AllTotalled(rest) {
      forall i | 0 <= i < |ts| ensures Totals(ts[i].postings).Ok? {
        if i > 0 { assert ts[i] == rest[i - 1]; }
      }
    }
    if AllTotalled(ts) {
      forall i | 0 <= i < |rest| ensures Totals(rest[i].postings).Ok? {
        assert rest[i] == ts[i + 1];
      }
    }
  }

  lemma {:induction false} OffendersFromOk(acc: seq<Imbalance>, ts: seq<Transaction>)
    ensures OffendersFrom(acc, ts).Ok? <==> AllTotalled(ts)
    decreases |ts|
  {
    if ts != [] {
      AllTotalledCons(ts);
      if Totals(ts[0].postings).Ok? {
        OffendersFromOk(acc + ComplaintOf(ts[0]), ts[1..]);
      }
    }
  }

  lemma {:induction false} OffendersFromValue(acc: seq<Imbalance>, ts: seq<Transaction>)
    requires AllTotalled(ts)
    ensures OffendersFrom(acc, ts) == Ok(acc + Complaints(ts))
    decreases |ts|
  {
    if ts == [] {
      assert acc + [] == acc;
    } else {
      ComplaintsCons(ts);
      var head := ComplaintOf(ts[0]);
      OffendersFromValue(acc + head, ts[1..]);
      assert acc + head + Complaints(ts[1..]) == acc + (head + Complaints(ts[1..]));
    }
  }

  /** A complaint names a transaction that does not balance and carries its non-zero totals. */
  predicate Describes(x: Imbalance, t: Transaction) {
    && Totals(t.postings).Ok? && !AllZero(Totals(t.postings).value) && x.line == t.line && x.date == t.date && x.description == t.description
    && x.amounts == NonZero(Totals(t.postings).value) && x.amounts != map[]
  }

  /** Complaints of a non-empty list: the first transaction's, then the rest's. */
  lemma ComplaintsCons(ts: seq<Transaction>)
    requires ts != [] && AllTotalled(ts)
    ensures AllTotalled(ts[1..])
    ensures Complaints(ts) == ComplaintOf(ts[0]) + Complaints(ts[1..])
  {
    AllTotalledCons(ts);
  }

  /** No complaints exactly when every transaction balances. */
  lemma {:induction false} ComplaintsEmpty(ts: seq<Transaction>)
    requires AllTotalled(ts)
    ensures Complaints(ts) == [] <==> forall i :: 0 <= i < |ts| ==> Balanced(ts[i])
    decreases |ts|
  {
    if ts != [] {
      var rest := ts[1..];
      ComplaintsCons(ts);
      ComplaintsEmpty(rest);
      if Complaints(ts) == [] {
        forall i | 0 <= i < |ts| ensures Balanced(ts[i]) {
          if i > 0 { assert rest[i - 1] == ts[i]; }
        }
      }
      if forall i :: 0 <= i < |ts| ==> Balanced(ts[i]) {
        assert Balanced(ts[0]);
        forall i | 0 <= i < |rest| ensures Balanced(rest[i]) {
          assert rest[i] == ts[i + 1];
        }
      }
    }
  }

  /** Every complaint describes a transaction of the list that does not balance. */
  lemma {:induction false} ComplaintsSound(ts: seq<Transaction>)
    requires AllTotalled(ts)
    ensures forall j :: 0 <= j < |Complaints(ts)| ==> exists i :: 0 <= i < |ts| && Describes(Complaints(ts)[j], ts[i])
    decreases |ts|
  {
    if ts != [] {
      var rest := ts[1..];
      ComplaintsCons(ts);
      ComplaintsSound(rest);
      var head := ComplaintOf(ts[0]);
      var r := Complaints(ts);
      forall j | 0 <= j < |r| ensures exists i :: 0 <= i < |ts| && Describes(r[j], ts[i]) {
        if j < |head| {
          ComplaintOfDescribes(ts[0]);
          assert Describes(r[j], ts[0]);
        } else {
          assert r[j] == Complaints(rest)[j - |head|];
          var i :| 0 <= i < |rest| && Describes(Complaints(rest)[j - |head|], rest[i]);
          assert rest[i] == ts[i + 1];
          assert Describes(r[j], ts[i + 1]);
        }
      }
    } else {
      assert Complaints(ts) == [];
    }
  }

  /** The one complaint about a transaction describes it. */
  lemma ComplaintOfDescribes(t: Transaction)
    requires Totals(t.postings).Ok?
    ensures |ComplaintOf(t)| <= 1
    ensures ComplaintOf(t) != [] ==> Describes(ComplaintOf(t)[0], t)
  {
    var b := Totals(t.postings).value;
    if !AllZero(b) {
      var u :| u in b && b[u] != 0;
      assert u in NonZero(b);
    }
  }

  /** Every transaction of the list that does not balance is complained about. */
  lemma {:induction false} ComplaintsComplete(ts: seq<Transaction>)
    requires AllTotalled(ts)
    ensures forall i :: 0 <= i < |ts| && !Balanced(ts[i]) ==>
              Imbalance(ts[i].line, ts[i].date, ts[i].description, NonZero(Totals(ts[i].postings).value)) in Complaints(ts)
    decreases |ts|
  {
    if ts != [] {
      var rest := ts[1..];
      ComplaintsCons(ts);
      ComplaintsComplete(rest);
      forall i | 0 <= i < |ts| && !Balanced(ts[i])
        ensures Imbalance(ts[i].line, ts[i].date, ts[i].description, NonZero(Totals(ts[i].postings).value)) in Complaints(ts)
      {
        if i > 0 {
          assert rest[i - 1] == ts[i];
        }
      }
    }
  }

  /** ensure_balanced's meaning: it fails when some transaction cannot be totalled; otherwise it
      reports nothing exactly when every transaction balances, and it reports every transaction
      that does not balance, with its non-zero totals, and nothing else. */
  lemma OffendersMeaning(ts: seq<Transaction>)
    ensures Offenders(ts).Ok? <==> forall i :: 0 <= i < |ts| ==> Totals(ts[i].postings).Ok?
    ensures Offenders(ts).Ok? ==>
              var r := Offenders(ts).value;
              && (r == [] <==> forall i :: 0 <= i < |ts| ==> Balanced(ts[i]))
              && (forall j :: 0 <= j < |r| ==> exists i :: 0 <= i < |ts| && Describes(r[j], ts[i]))
              && (forall i :: 0 <= i < |ts| && !Balanced(ts[i]) ==>
                    Imbalance(ts[i].line, ts[i].date, ts[i].description, NonZero(Totals(ts[i].postings).value)) in r)
  {
    OffendersFromOk([], ts);
    if Offenders(ts).Ok? {
      OffendersFromValue([], ts);
      assert [] + Complaints(ts) == Complaints(ts);
      ComplaintsEmpty(ts);
      ComplaintsSound(ts);
      ComplaintsComplete(ts);
    }
  }

  /** ensure_balanced: every transaction is examined and every offender collected; the caller exits
      when the list is not empty. */
  method EnsureBalanced(ts: seq<Transaction>) returns (r: Result<seq<Imbalance>>)
    ensures r == Offenders(ts)
  {
    var offenders: seq<Imbalance> := [];
    var i := 0;
    while i < |ts|
      invariant 0 <= i <= |ts|
      invariant Offenders(ts) == OffendersFrom(offenders, ts[i..])
    {
      var t := ts[i];
      assert ts[i..][1..] == ts[i + 1..];
      var balanced := IsBalanced(t);
      if balanced.Err? {
        return Err(balanced.error);
      }
      if !balanced.value {
        var amounts := BalanceAmounts(t);
        offenders := offenders + [Imbalance(t.line, t.date, t.description, NonZero(amounts.value))];
      } else {
        assert offenders + ComplaintOf(t) == offenders;
      }
      i := i + 1;
    }
    r := Ok(offenders);
  }

  /** Non-decreasing dates in file order. */
  predicate DateSorted(ts: seq<Transaction>) {
    forall i :: 1 <= i < |ts| ==> !Lt(ts[i].date, ts[i - 1].date)
  }

  /** ensure_date_sorted: passes exactly when no transaction is dated before its predecessor, and
      otherwise reports the FIRST transaction that is. */
  method EnsureDateSorted(ts: seq<Transaction>) returns (r: Outcome)
    ensures r.Pass? <==> DateSorted(ts)
    ensures r.Fail? ==> exists k :: 1 <= k < |ts| && Lt(ts[k].date, ts[k - 1].date)
                          && DateSorted(ts[..k])
                          && r.error == OutOfOrder(ts[k].line, ts[k].date, ts[k].description)
  {
    if |ts| < 2 {
      return Pass;
    }
    var lastDate := ts[0].date;
    var k := 1;
    while k < |ts|
      invariant 1 <= k <= |ts|
      invariant lastDate == ts[k - 1].date
      invariant forall i :: 1 <= i < k ==> !Lt(ts[i].date, ts[i - 1].date)
    {
      if Lt(ts[k].date, lastDate) {
        assert DateSorted(ts[..k]);
        return Fail(OutOfOrder(ts[k].line, ts[k].date, ts[k].description));
      }
      lastDate := ts[k].date;
      k := k + 1;
    }
    r := Pass;
  }
}
