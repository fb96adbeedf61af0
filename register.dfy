/** calculate_register: the postings that affect one account, booked one at a time onto a
    tree of their own, each in the date range giving a row with the account's balance so
    far. */
module Register {
  import opened Text
  import opened Results
  import opened Accounts
  import opened Amounts
  import opened Journal
  import opened Tree
  import opened Engine

  type Nodes = map<Path, Account>

  /** One line of the register: the transaction's date, the account's running balance, the
      posting's amount, the posting's account and the transaction's description. */
  datatype RegisterRow = RegisterRow(date: string, balance: string, amount: string, account: string, description: string)

  /** `(not first_date or date >= first_date) and (not last_date or date <= last_date)`: a
      missing or empty bound does not restrict. */
  predicate InRange(date: string, first: Option<string>, last: Option<string>) {
    && (first.None? || first.value == "" || Le(first.value, date))
    && (last.None? || last.value == "" || Le(date, last.value))
  }

  // ---------------------------------------------------------------------------------------
  // the register as the ledger computes it, on the tree

  /** The tree and the rows so far. */
  datatype Registering = Registering(nodes: Nodes, rows: seq<RegisterRow>)

  /** The row for posting `p` of `t`, in the order the tuple is built: the balance of the
      account's node, then the posting's amount. */
  function Row(nodes: Nodes, account: string, t: Transaction, p: Posting): (r: Result<RegisterRow>)
    ensures r.Ok? ==> r.value.date == t.date && r.value.account == p.account && r.value.description == t.description
  {
    var leaf :- FindAccount(nodes, account);
    assert leaf[..|leaf|] == leaf && leaf in Prefixes(leaf);
    var balance :- FormatSingleUnitAmount(nodes[leaf].balances);
    var amount :- FormatAmount(p.amount);
    Ok(RegisterRow(t.date, balance, amount, p.account, t.description))
  }

  /** The body of the inner loop: book_posting, then a row when the transaction is dated in
      the range. */
  function RegisterStep(st: Registering, account: string, t: Transaction, p: Posting, first: Option<string>, last: Option<string>): Result<Registering> {
    var m :- Booked(st.nodes, p);
    if InRange(t.date, first, last) then
      var row :- Row(m, account, t, p);
      Ok(Registering(m, st.rows + [row]))
    else Ok(Registering(m, st.rows))
  }

  /** The inner loop over the postings of `t` that affect the account. */
  function RegisterPostings(st: Registering, account: string, t: Transaction, ps: seq<Posting>, first: Option<string>, last: Option<string>): Result<Registering>
    decreases |ps|
  {
    if ps == [] then Ok(st)
    else
      var next :- RegisterStep(st, account, t, ps[0], first, last);
      RegisterPostings(next, account, t, ps[1..], first, last)
  }

  /** The outer loop over the transactions. */
  function RegisterTransactions(st: Registering, account: string, ts: seq<Transaction>, first: Option<string>, last: Option<string>): Result<Registering>
    decreases |ts|
  {
    if ts == [] then Ok(st)
    else
      var next :- RegisterPostings(st, account, ts[0], FilterPostings(ts[0].postings, account), first, last);
      RegisterTransactions(next, account, ts[1..], first, last)
  }

  /** account_tree_from_transactions. */
  function StartTree(ts: seq<Transaction>): Nodes {
    EnsuredAll(Root(), AccountComponents(PostingsOf(ts)))
  }

  /** calculate_register: the transactions affecting the account, the tree of their
      accounts, then the loops. */
  function CalculatedRegister(ts: seq<Transaction>, account: string, first: Option<string>, last: Option<string>): Result<seq<RegisterRow>> {
    var fs := FilterTransactions(ts, account);
    var st :- RegisterTransactions(Registering(StartTree(fs), []), account, fs, first, last);
    Ok(st.rows)
  }

  // ---------------------------------------------------------------------------------------
  // the register as a running balance

  /** The running balance of the account and the rows so far. */
  datatype Running = Running(balance: Balances, rows: seq<RegisterRow>)

  /** A posting's amount is added to the running balance; a nil amount has no units. In the
      range, the row shows the running balance and the amount. */
  function RunningStep(st: Running, t: Transaction, p: Posting, first: Option<string>, last: Option<string>): Result<Running> {
    if p.amount.Nil? then Err(NoUnits)
    else
      var b := Add(st.balance, p.amount.units, p.amount.quantity);
      if InRange(t.date, first, last) then
        var balance :- FormatSingleUnitAmount(b);
        var amount :- FormatAmount(p.amount);
        Ok(Running(b, st.rows + [RegisterRow(t.date, balance, amount, p.account, t.description)]))
      else Ok(Running(b, st.rows))
  }

  /** Every posting of `t` that affects the account, in order; the others are passed over. */
  function RunningPostings(st: Running, account: string, t: Transaction, ps: seq<Posting>, first: Option<string>, last: Option<string>): Result<Running>
    decreases |ps|
  {
    if ps == [] then Ok(st)
    else
      var next :- if AffectsPosting(ps[0], account) then RunningStep(st, t, ps[0], first, last) else Ok(st);
      RunningPostings(next, account, t, ps[1..], first, last)
  }

  /** Every transaction in order, with no filter on the transactions. */
  function RunningTransactions(st: Running, account: string, ts: seq<Transaction>, first: Option<string>, last: Option<string>): Result<Running>
    decreases |ts|
  {
    if ts == [] then Ok(st)
    else
      var next :- RunningPostings(st, account, ts[0], ts[0].postings, first, last);
      RunningTransactions(next, account, ts[1..], first, last)
  }

  /** The register as a running balance that starts empty. */
  function RunningRegister(ts: seq<Transaction>, account: string, first: Option<string>, last: Option<string>): Result<seq<RegisterRow>> {
    var st :- RunningTransactions(Running(map[], []), account, ts, first, last);
    Ok(st.rows)
  }

  // ---------------------------------------------------------------------------------------
  // the two agree

  /** Every posting of `ps` that affects the account has all its nodes in `keys`. */
  ghost predicate CoveredPostings(keys: set<Path>, account: string, ps: seq<Posting>) {
    forall p :: p in ps && AffectsPosting(p, account) ==> Prefixes(Regular(p.account)) <= keys
  }

  ghost predicate Covered(keys: set<Path>, account: string, ts: seq<Transaction>) {
    forall t :: t in ts ==> CoveredPostings(keys, account, t.postings)
  }

  /** The tree has the nodes `keys`, and the account's node, when there, holds the running
      balance. */
  ghost predicate Tracks(nodes: Nodes, b: Balances, account: string, keys: set<Path>) {
    && nodes.Keys == keys
    && (Regular(account) in nodes ==> nodes[Regular(account)].balances == b)
  }

  /** Both fail with the same error, or both succeed with the same rows and the tree tracks
      the running balance. */
  ghost predicate Related(x: Result<Registering>, y: Result<Running>, account: string, keys: set<Path>) {
    && (x.Ok? <==> y.Ok?)
    && (x.Ok? ==> x.value.rows == y.value.rows && Tracks(x.value.nodes, y.value.balance, account, keys))
    && (x.Err? ==> x.error == y.error)
  }

  /** A posting that affects the account passes through the account's node. */
  lemma AffectedOnPath(p: Posting, account: string)
    requires AffectsPosting(p, account)
    ensures OnPath(Regular(account), Regular(p.account))
    ensures Prefixes(Regular(account)) <= Prefixes(Regular(p.account))
  {
    var q, r := Regular(account), Regular(p.account);
    assert q == r[..|q|];
    PrefixesOfPrefix(r, |q|);
  }

  /** Booking an affecting posting adds its amount to the account's node and keeps the
      nodes, and the account is then found. */
  lemma BookedTracks(nodes: Nodes, b: Balances, account: string, keys: set<Path>, p: Posting)
    requires Tracks(nodes, b, account, keys)
    requires AffectsPosting(p, account) && Prefixes(Regular(p.account)) <= keys && p.amount.Amount?
    ensures Booked(nodes, p).Ok?
    ensures Tracks(Booked(nodes, p).value, Add(b, p.amount.units, p.amount.quantity), account, keys)
    ensures FindAccount(Booked(nodes, p).value, account) == Ok(Regular(account))
  {
    var q, r := Regular(account), Regular(p.account);
    var u, n := p.amount.units, p.amount.quantity;
    BookedCases(nodes, p);
    BookingMeaning(nodes, r, u, n);
    AffectedOnPath(p, account);
    PrefixesOnPath(q, r);
    var m := Booking(nodes, r, u, n);
    assert m[q].balances == Add(nodes[q].balances, u, n);
  }

  lemma StepRelated(nodes: Nodes, b: Balances, rows: seq<RegisterRow>, account: string, keys: set<Path>,
                    t: Transaction, p: Posting, first: Option<string>, last: Option<string>)
    requires Tracks(nodes, b, account, keys)
    requires AffectsPosting(p, account) && Prefixes(Regular(p.account)) <= keys
    ensures Related(RegisterStep(Registering(nodes, rows), account, t, p, first, last),
                    RunningStep(Running(b, rows), t, p, first, last), account, keys)
  {
    if p.amount.Nil? {
      BookedCases(nodes, p);
    } else {
      BookedTracks(nodes, b, account, keys, p);
      var q := Regular(account);
      var m := Booked(nodes, p).value;
      assert q[..|q|] == q && q in Prefixes(q);
    }
  }

  lemma {:induction false} PostingsRelated(nodes: Nodes, b: Balances, rows: seq<RegisterRow>, account: string, keys: set<Path>,
                                           t: Transaction, ps: seq<Posting>, first: Option<string>, last: Option<string>)
    requires Tracks(nodes, b, account, keys) && CoveredPostings(keys, account, ps)
    ensures Related(RegisterPostings(Registering(nodes, rows), account, t, FilterPostings(ps, account), first, last),
                    RunningPostings(Running(b, rows), account, t, ps, first, last), account, keys)
    decreases |ps|
  {
    if ps != [] {
      var fs := FilterPostings(ps, account);
      assert CoveredPostings(keys, account, ps[1..]) by {
        forall p | p in ps[1..] ensures p in ps { }
      }
      if AffectsPosting(ps[0], account) {
        assert fs[0] == ps[0] && fs[1..] == FilterPostings(ps[1..], account);
        StepRelated(nodes, b, rows, account, keys, t, ps[0], first, last);
        var x := RegisterStep(Registering(nodes, rows), account, t, ps[0], first, last);
        if x.Ok? {
          var y := RunningStep(Running(b, rows), t, ps[0], first, last);
          PostingsRelated(x.value.nodes, y.value.balance, x.value.rows, account, keys, t, ps[1..], first, last);
        }
      } else {
        assert fs == FilterPostings(ps[1..], account);
        PostingsRelated(nodes, b, rows, account, keys, t, ps[1..], first, last);
      }
    }
  }

  /** A transaction that does not affect the account leaves the running balance and the
      rows as they are. */
  lemma {:induction false} PostingsUnaffected(st: Running, account: string, t: Transaction, ps: seq<Posting>, first: Option<string>, last: Option<string>)
    requires forall i :: 0 <= i < |ps| ==> !AffectsPosting(ps[i], account)
    ensures RunningPostings(st, account, t, ps, first, last) == Ok(st)
    decreases |ps|
  {
    if ps != [] {
      assert !AffectsPosting(ps[0], account);
      PostingsUnaffected(st, account, t, ps[1..], first, last);
    }
  }

  lemma {:induction false} TransactionsRelated(nodes: Nodes, b: Balances, rows: seq<RegisterRow>, account: string, keys: set<Path>,
                                               ts: seq<Transaction>, first: Option<string>, last: Option<string>)
    requires Tracks(nodes, b, account, keys) && Covered(keys, account, ts)
    ensures Related(RegisterTransactions(Registering(nodes, rows), account, FilterTransactions(ts, account), first, last),
                    RunningTransactions(Running(b, rows), account, ts, first, last), account, keys)
    decreases |ts|
  {
    if ts != [] {
      var t := ts[0];
      var fs := FilterTransactions(ts, account);
      assert Covered(keys, account, ts[1..]) by {
        forall x | x in ts[1..] ensures x in ts { }
      }
      if AffectsTransaction(t, account) {
        assert fs[0] == t && fs[1..] == FilterTransactions(ts[1..], account);
        PostingsRelated(nodes, b, rows, account, keys, t, t.postings, first, last);
        var x := RegisterPostings(Registering(nodes, rows), account, t, FilterPostings(t.postings, account), first, last);
        if x.Ok? {
          var y := RunningPostings(Running(b, rows), account, t, t.postings, first, last);
          TransactionsRelated(x.value.nodes, y.value.balance, x.value.rows, account, keys, ts[1..], first, last);
        }
      } else {
        assert fs == FilterTransactions(ts[1..], account);
        PostingsUnaffected(Running(b, rows), account, t, t.postings, first, last);
        TransactionsRelated(nodes, b, rows, account, keys, ts[1..], first, last);
      }
    }
  }

  /** The tree built from the affecting transactions has every node of every affecting
      posting, and the account's node, if made, starts with no balance. */
  lemma StartTracks(ts: seq<Transaction>, account: string)
    ensures Tracks(StartTree(FilterTransactions(ts, account)), map[], account, StartTree(FilterTransactions(ts, account)).Keys)
    ensures Covered(StartTree(FilterTransactions(ts, account)).Keys, account, ts)
  {
    var fs := FilterTransactions(ts, account);
    var ps := PostingsOf(fs);
    var cs := AccountComponents(ps);
    var start := StartTree(fs);
    var q := Regular(account);
    if q in start {
      EnsuredAllNew(Root(), cs, q);
    }
    forall t | t in ts ensures CoveredPostings(start.Keys, account, t.postings) {
      forall p | p in t.postings && AffectsPosting(p, account) ensures Prefixes(Regular(p.account)) <= start.Keys {
        var j :| 0 <= j < |t.postings| && t.postings[j] == p;
        assert AffectsTransaction(t, account);
        var k :| 0 <= k < |ts| && ts[k] == t;
        assert t in fs;
        PostingInPostingsOf(fs, t, p);
        var i :| 0 <= i < |ps| && ps[i] == p;
        forall x | x in Prefixes(Regular(p.account)) ensures x in start {
          PrefixesOnPath(x, Regular(p.account));
          assert cs[i].regular == Regular(p.account);
          assert OnPath(x, cs[i].regular);
          EnsuredAllKeys(Root(), cs, x);
        }
      }
    }
  }

  /** A posting of one of the transactions is among their postings. */
  lemma {:induction false} PostingInPostingsOf(ts: seq<Transaction>, t: Transaction, p: Posting)
    requires t in ts && p in t.postings
    ensures p in PostingsOf(ts)
    decreases |ts|
  {
    var n := |ts| - 1;
    if ts[n] != t {
      assert t in ts[..n];
      PostingInPostingsOf(ts[..n], t, p);
    }
  }

  /** calculate_register keeps a running balance: its rows are those of the account's
      postings added up one at a time from nothing, and it fails exactly when that does,
      with the same error. */
  lemma RegisterIsRunning(ts: seq<Transaction>, account: string, first: Option<string>, last: Option<string>)
    ensures CalculatedRegister(ts, account, first, last) == RunningRegister(ts, account, first, last)
  {
    var fs := FilterTransactions(ts, account);
    StartTracks(ts, account);
    TransactionsRelated(StartTree(fs), map[], [], account, StartTree(fs).Keys, ts, first, last);
  }

  // ---------------------------------------------------------------------------------------
  // what the rows hold

  /** Each new row is of an affecting posting of the transaction, dated in the range; the
      rows before stay. */
  lemma {:induction false} RunningPostingsRows(st: Running, account: string, t: Transaction, ps: seq<Posting>, first: Option<string>, last: Option<string>)
    requires RunningPostings(st, account, t, ps, first, last).Ok?
    ensures st.rows <= RunningPostings(st, account, t, ps, first, last).value.rows
    ensures forall k :: |st.rows| <= k < |RunningPostings(st, account, t, ps, first, last).value.rows| ==>
              var row := RunningPostings(st, account, t, ps, first, last).value.rows[k];
              row.date == t.date && InRange(row.date, first, last) && ContainsAccount(account, row.account)
    decreases |ps|
  {
    if ps != [] {
      var next := if AffectsPosting(ps[0], account) then RunningStep(st, t, ps[0], first, last) else Ok(st);
      RunningPostingsRows(next.value, account, t, ps[1..], first, last);
    }
  }

  /** Every row is dated in the range and is of a posting to the account or below it. */
  lemma {:induction false} RunningTransactionsRows(st: Running, account: string, ts: seq<Transaction>, first: Option<string>, last: Option<string>)
    requires RunningTransactions(st, account, ts, first, last).Ok?
    ensures st.rows <= RunningTransactions(st, account, ts, first, last).value.rows
    ensures forall k :: |st.rows| <= k < |RunningTransactions(st, account, ts, first, last).value.rows| ==>
              var row := RunningTransactions(st, account, ts, first, last).value.rows[k];
              InRange(row.date, first, last) && ContainsAccount(account, row.account)
    decreases |ts|
  {
    if ts != [] {
      var next := RunningPostings(st, account, ts[0], ts[0].postings, first, last);
      RunningPostingsRows(st, account, ts[0], ts[0].postings, first, last);
      RunningTransactionsRows(next.value, account, ts[1..], first, last);
    }
  }

  /** The rows of calculate_register are dated in the range and are of postings to the
      account or below it. */
  lemma RegisterRows(ts: seq<Transaction>, account: string, first: Option<string>, last: Option<string>, k: nat)
    requires CalculatedRegister(ts, account, first, last).Ok? && k < |CalculatedRegister(ts, account, first, last).value|
    ensures InRange(CalculatedRegister(ts, account, first, last).value[k].date, first, last)
    ensures ContainsAccount(account, CalculatedRegister(ts, account, first, last).value[k].account)
  {
    RegisterIsRunning(ts, account, first, last);
    RunningTransactionsRows(Running(map[], []), account, ts, first, last);
  }

  // ---------------------------------------------------------------------------------------
  // the loops

  /** The rows a loop returns, with the tree it leaves, as a state of the register. */
  function Lifted(r: Result<seq<RegisterRow>>, nodes: Nodes): (s: Result<Registering>)
    ensures s.Ok? <==> r.Ok?
    ensures r.Ok? ==> s.value.nodes == nodes && s.value.rows == r.value
    ensures r.Err? ==> s.error == r.error
  {
    if r.Ok? then Ok(Registering(nodes, r.value)) else Err(r.error)
  }

  /** The body of the inner loop of calculate_register. */
  method RegisterPosting(tree: AccountTree, account: string, t: Transaction, p: Posting, rows: seq<RegisterRow>,
                         first: Option<string>, last: Option<string>) returns (r: Result<seq<RegisterRow>>)
    modifies tree
    ensures Lifted(r, tree.nodes) == RegisterStep(Registering(old(tree.nodes), rows), account, t, p, first, last)
  {
    var booked := tree.BookPosting(p);
    if booked.Fail? {
      return Err(booked.error);
    }
    if (first.None? || first.value == "" || Le(first.value, t.date)) && (last.None? || last.value == "" || Le(t.date, last.value)) {
      var leaf := tree.Find(account);
      if leaf.Err? {
        return Err(leaf.error);
      }
      var l := leaf.value;
      assert l[..|l|] == l && l in Prefixes(l);
      var balance := FormatSingleUnitAmount(tree.nodes[l].balances);
      if balance.Err? {
        return Err(balance.error);
      }
      var amount := FormatAmount(p.amount);
      if amount.Err? {
        return Err(amount.error);
      }
      r := Ok(rows + [RegisterRow(t.date, balance.value, amount.value, p.account, t.description)]);
    } else {
      r := Ok(rows);
    }
  }

  /** The inner loop of calculate_register, over the postings `ps` of `t`. */
  method RegisterEach(tree: AccountTree, account: string, t: Transaction, ps: seq<Posting>, rows: seq<RegisterRow>,
                      first: Option<string>, last: Option<string>) returns (r: Result<seq<RegisterRow>>)
    modifies tree
    ensures Lifted(r, tree.nodes) == RegisterPostings(Registering(old(tree.nodes), rows), account, t, ps, first, last)
  {
    var rest, acc := ps, rows;
    while rest != []
      invariant RegisterPostings(Registering(tree.nodes, acc), account, t, rest, first, last)
                == RegisterPostings(Registering(old(tree.nodes), rows), account, t, ps, first, last)
      decreases |rest|
    {
      r := RegisterPosting(tree, account, t, rest[0], acc, first, last);
      if r.Err? {
        return;
      }
      acc, rest := r.value, rest[1..];
    }
    r := Ok(acc);
  }

  /** One transaction of calculate_register: the loop over its postings that affect the
      account. */
  method RegisterTransaction(tree: AccountTree, account: string, t: Transaction, rows: seq<RegisterRow>,
                             first: Option<string>, last: Option<string>) returns (r: Result<seq<RegisterRow>>)
    modifies tree
    ensures Lifted(r, tree.nodes) == RegisterPostings(Registering(old(tree.nodes), rows), account, t, FilterPostings(t.postings, account), first, last)
  {
    r := RegisterEach(tree, account, t, FilterPostings(t.postings, account), rows, first, last);
  }

  /** The outer loop of calculate_register, over the transactions. */
  method RegisterAll(tree: AccountTree, account: string, ts: seq<Transaction>, first: Option<string>, last: Option<string>)
    returns (r: Result<seq<RegisterRow>>)
    modifies tree
    ensures Lifted(r, tree.nodes) == RegisterTransactions(Registering(old(tree.nodes), []), account, ts, first, last)
  {
    var rest, rows := ts, [];
    while rest != []
      invariant RegisterTransactions(Registering(tree.nodes, rows), account, rest, first, last)
                == RegisterTransactions(Registering(old(tree.nodes), []), account, ts, first, last)
      decreases |rest|
    {
      r := RegisterTransaction(tree, account, rest[0], rows, first, last);
      if r.Err? {
        return;
      }
      rows, rest := r.value, rest[1..];
    }
    r := Ok(rows);
  }

  /** calculate_register: filter_by_account, account_tree_from_transactions, then the
      loops. */
  method CalculateRegister(ts: seq<Transaction>, account: string, first: Option<string>, last: Option<string>)
    returns (r: Result<seq<RegisterRow>>)
    ensures r == CalculatedRegister(ts, account, first, last)
  {
    var fs := FilterTransactions(ts, account);
    var tree := AccountTreeFromTransactions(fs);
    r := RegisterAll(tree, account, fs, first, last);
  }
}
