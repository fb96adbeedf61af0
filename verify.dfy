/** verify_balance and verify_balances: VERIFY-BALANCE assertions checked against the balances
    of the account tree while the transactions are booked. */
module Verify {
  import opened Text
  import opened Results
  import opened Accounts
  import opened Amounts
  import opened Journal
  import opened Tree
  import opened Engine

  // ---------------------------------------------------------------------------------------
  // sorted(verifications, key=lambda x: x['date']): a stable sort by date

  predicate DateOrdered(s: seq<Verification>) {
    forall i, j :: 0 <= i < j < |s| ==> Le(s[i].date, s[j].date)
  }

  /** `v` placed after every element dated on or before it. */
  function Insert(s: seq<Verification>, v: Verification): (r: seq<Verification>)
    ensures |r| == |s| + 1
    decreases |s|
  {
    if s == [] || Le(s[|s| - 1].date, v.date) then s + [v]
    else Insert(s[..|s| - 1], v) + [s[|s| - 1]]
  }

  function SortByDate(vs: seq<Verification>): (r: seq<Verification>)
    ensures |r| == |vs|
    decreases |vs|
  {
    if vs == [] then [] else Insert(SortByDate(vs[..|vs| - 1]), vs[|vs| - 1])
  }

  /** The verifications dated `d`, in their order. */
  function OnDate(s: seq<Verification>, d: string): seq<Verification>
    decreases |s|
  {
    if s == [] then []
    else OnDate(s[..|s| - 1], d) + if s[|s| - 1].date == d then [s[|s| - 1]] else []
  }

  lemma OnDateSnoc(s: seq<Verification>, v: Verification, d: string)
    ensures OnDate(s + [v], d) == OnDate(s, d) + if v.date == d then [v] else []
  {
    assert (s + [v])[..|s|] == s;
  }

  lemma {:induction false} InsertElements(s: seq<Verification>, v: Verification)
    ensures multiset(Insert(s, v)) == multiset(s) + multiset{v}
    decreases |s|
  {
    if s != [] && !Le(s[|s| - 1].date, v.date) {
      var n := |s| - 1;
      InsertElements(s[..n], v);
      assert s == s[..n] + [s[n]];
    }
  }

  /** Inserting keeps a common upper bound on the dates. */
  lemma {:induction false} InsertBounded(s: seq<Verification>, v: Verification, b: string)
    requires forall i :: 0 <= i < |s| ==> Le(s[i].date, b)
    requires Le(v.date, b)
    ensures forall i :: 0 <= i < |Insert(s, v)| ==> Le(Insert(s, v)[i].date, b)
    decreases |s|
  {
    if s != [] && !Le(s[|s| - 1].date, v.date) {
      var n := |s| - 1;
      InsertBounded(s[..n], v, b);
    }
  }

  lemma {:induction false} InsertOrdered(s: seq<Verification>, v: Verification)
    requires DateOrdered(s)
    ensures DateOrdered(Insert(s, v))
    decreases |s|
  {
    if s == [] || Le(s[|s| - 1].date, v.date) {
      var r := s + [v];
      forall i, j | 0 <= i < j < |r|
        ensures Le(r[i].date, r[j].date)
      {
        if j == |s| && i < |s| - 1 {
          LeTransitive(s[i].date, s[|s| - 1].date, v.date);
        }
      }
    } else {
      var n := |s| - 1;
      var init, last := s[..n], s[n];
      InsertOrdered(init, v);
      NotLe(last.date, v.date);
      InsertBounded(init, v, last.date);
      var r := Insert(init, v);
      assert Insert(s, v) == r + [last];
      forall i, j | 0 <= i < j < |r| + 1
        ensures Le((r + [last])[i].date, (r + [last])[j].date)
      {
        if j < |r| {
          assert (r + [last])[i] == r[i] && (r + [last])[j] == r[j];
        }
      }
    }
  }

  lemma {:induction false} InsertOnDate(s: seq<Verification>, v: Verification, d: string)
    requires DateOrdered(s)
    ensures OnDate(Insert(s, v), d) == OnDate(s, d) + if v.date == d then [v] else []
    decreases |s|
  {
    if s == [] || Le(s[|s| - 1].date, v.date) {
      OnDateSnoc(s, v, d);
    } else {
      var n := |s| - 1;
      var init, last := s[..n], s[n];
      assert DateOrdered(init);
      InsertOnDate(init, v, d);
      var a := OnDate(init, d);
      var tv: seq<Verification> := if v.date == d then [v] else [];
      var tl: seq<Verification> := if last.date == d then [last] else [];
      assert Insert(s, v) == Insert(init, v) + [last];
      OnDateSnoc(Insert(init, v), last, d);
      assert OnDate(Insert(s, v), d) == (a + tv) + tl;
      assert s == init + [last];
      OnDateSnoc(init, last, d);
      assert OnDate(s, d) == a + tl;
      assert tv == [] || tl == [] by {
        NotLe(last.date, v.date);
        LtIrreflexive(v.date);
      }
    }
  }

  /** The sort orders by date, keeps every verification, and keeps those of one date in
      their original order. */
  lemma {:induction false} SortByDateMeaning(vs: seq<Verification>)
    ensures DateOrdered(SortByDate(vs))
    ensures multiset(SortByDate(vs)) == multiset(vs)
    ensures forall d :: OnDate(SortByDate(vs), d) == OnDate(vs, d)
    decreases |vs|
  {
    if vs != [] {
      var n := |vs| - 1;
      SortByDateMeaning(vs[..n]);
      InsertOrdered(SortByDate(vs[..n]), vs[n]);
      InsertElements(SortByDate(vs[..n]), vs[n]);
      assert vs == vs[..n] + [vs[n]];
      forall d
        ensures OnDate(SortByDate(vs), d) == OnDate(vs, d)
      {
        InsertOnDate(SortByDate(vs[..n]), vs[n], d);
        OnDateSnoc(vs[..n], vs[n], d);
      }
    }
  }

  // ---------------------------------------------------------------------------------------
  // verify_balance

  /** What verify_balance reports: the verification and whether the balance matched. */
  datatype Check = Check(verification: Verification, passed: bool)

  type Nodes = map<Path, Account>

  /** verify_balance: the account must be in the tree and hold exactly one unit; the check
      passes when that amount is the expected one. The message it prints then formats the
      expected amount (always, when `verbose`) and, on a mismatch, the actual balance, and
      either can fail on a unit other than AUD. */
  function VerifyBalance(v: Verification, nodes: Nodes, verbose: bool): (r: Result<Check>)
    ensures r.Ok? ==> r.value.verification == v
  {
    var leaf :- FindAccount(nodes, v.account);
    assert leaf[..|leaf|] == leaf && leaf in Prefixes(leaf);
    CheckBalances(v, nodes[leaf].balances, verbose)
  }

  /** In a tree where every node's parent is present, a missing account is an error and a
      present one has its balances checked. */
  lemma VerifyBalanceCases(v: Verification, nodes: Nodes, verbose: bool)
    requires PrefixClosed(nodes)
    ensures Regular(v.account) !in nodes ==> VerifyBalance(v, nodes, verbose) == Err(AccountNotFound(v.account))
    ensures Regular(v.account) in nodes ==> VerifyBalance(v, nodes, verbose) == CheckBalances(v, nodes[Regular(v.account)].balances, verbose)
  {
    FindAccountCases(nodes, v.account);
    if Regular(v.account) in nodes {
      var leaf := Regular(v.account);
      assert leaf[..|leaf|] == leaf && leaf in Prefixes(leaf);
    }
  }

  /** The rest of verify_balance once the account is found: a balance with other than one
      unit is an error, and a check that completes passes exactly when the one unit and
      quantity held are the expected ones. */
  function CheckBalances(v: Verification, balances: Balances, verbose: bool): (r: Result<Check>)
    ensures |balances| != 1 ==> r == Err(NotSingleUnit(|balances|))
    ensures r.Ok? ==> r.value.verification == v && (r.value.passed <==> ExtractSingleUnitAmount(balances) == Ok(v.amount))
    ensures ExtractSingleUnitAmount(balances) == Ok(v.amount) ==>
              (r.Ok? <==> !verbose || FormatAmount(v.amount).Ok?)
    ensures |balances| == 1 && ExtractSingleUnitAmount(balances) != Ok(v.amount) ==>
              (r.Ok? <==> FormatAmount(v.amount).Ok? && FormatSingleUnitAmount(balances).Ok?)
  {
    var actual :- ExtractSingleUnitAmount(balances);
    if actual == v.amount then
      if verbose then
        var shown :- FormatAmount(v.amount);
        Ok(Check(v, true))
      else
        Ok(Check(v, true))
    else
      var expected :- FormatAmount(v.amount);
      var found :- FormatSingleUnitAmount(balances);
      Ok(Check(v, false))
  }

  // ---------------------------------------------------------------------------------------
  // verify_balances, over any way of checking and booking

  /** What verify_balances does with one verification and with one transaction's postings. */
  datatype Steps = Steps(check: (Verification, Nodes) -> Result<Check>, book: (Nodes, seq<Posting>) -> Result<Nodes>)

  /** The state of verify_balances: the tree's nodes, the checks made so far and the queue
      of verifications still to check. */
  datatype Merge = Merge(nodes: Nodes, checks: seq<Check>, queue: seq<Verification>)

  /** The closing loop: every verification left is checked against the final balances. */
  function Drain(st: Steps, m: Merge): Result<Merge>
    decreases |m.queue|
  {
    if m.queue == [] then Ok(m)
    else
      var c :- st.check(m.queue[0], m.nodes);
      Drain(st, Merge(m.nodes, m.checks + [c], m.queue[1..]))
  }

  /** One transaction of the loop as written: the head of the queue is checked when it is
      dated strictly before the transaction, then the transaction's postings are booked. */
  function StepIf(st: Steps, m: Merge, t: Transaction): Result<Merge> {
    if m.queue != [] && Lt(m.queue[0].date, t.date) then
      var c :- st.check(m.queue[0], m.nodes);
      var nodes :- st.book(m.nodes, t.postings);
      Ok(Merge(nodes, m.checks + [c], m.queue[1..]))
    else
      var nodes :- st.book(m.nodes, t.postings);
      Ok(Merge(nodes, m.checks, m.queue))
  }

  /** The loop over the transactions as written, then the closing loop. With one `if` per
      transaction, at most one verification is checked before each. */
  function RunIf(st: Steps, m: Merge, ts: seq<Transaction>, i: nat): Result<Merge>
    requires i <= |ts|
    decreases |ts| - i
  {
    if i == |ts| then Drain(st, m)
    else
      var m' :- StepIf(st, m, ts[i]);
      RunIf(st, m', ts, i + 1)
  }

  /** The loop with `while` in place of the `if`: every verification at the head of the
      queue dated strictly before transaction `i` is checked before it is booked. */
  function RunWhile(st: Steps, m: Merge, ts: seq<Transaction>, i: nat): Result<Merge>
    requires i <= |ts|
    decreases |ts| - i, |m.queue|
  {
    if i == |ts| then Drain(st, m)
    else if m.queue != [] && Lt(m.queue[0].date, ts[i].date) then
      var c :- st.check(m.queue[0], m.nodes);
      RunWhile(st, Merge(m.nodes, m.checks + [c], m.queue[1..]), ts, i)
    else
      var nodes :- st.book(m.nodes, ts[i].postings);
      RunWhile(st, Merge(nodes, m.checks, m.queue), ts, i + 1)
  }

  /** One transaction of the loop with `while`: every verification at the head of the queue
      dated strictly before the transaction is checked, then its postings are booked. */
  function StepWhile(st: Steps, m: Merge, t: Transaction): Result<Merge>
    decreases |m.queue|
  {
    if m.queue != [] && Lt(m.queue[0].date, t.date) then
      var c :- st.check(m.queue[0], m.nodes);
      StepWhile(st, Merge(m.nodes, m.checks + [c], m.queue[1..]), t)
    else
      var nodes :- st.book(m.nodes, t.postings);
      Ok(Merge(nodes, m.checks, m.queue))
  }

  /** The loop with `while` is that step taken for each transaction in turn. */
  lemma {:induction false} RunWhileStep(st: Steps, m: Merge, ts: seq<Transaction>, i: nat)
    requires i < |ts|
    ensures StepWhile(st, m, ts[i]).Err? ==> RunWhile(st, m, ts, i) == Err(StepWhile(st, m, ts[i]).error)
    ensures StepWhile(st, m, ts[i]).Ok? ==> RunWhile(st, m, ts, i) == RunWhile(st, StepWhile(st, m, ts[i]).value, ts, i + 1)
    decreases |m.queue|
  {
    if m.queue != [] && Lt(m.queue[0].date, ts[i].date) {
      var c := st.check(m.queue[0], m.nodes);
      if c.Ok? {
        RunWhileStep(st, Merge(m.nodes, m.checks + [c.value], m.queue[1..]), ts, i);
      }
    }
  }

  /** The balances once the first `i` transactions are booked. */
  function BookedUpTo(st: Steps, start: Nodes, ts: seq<Transaction>, i: nat): Result<Nodes>
    requires i <= |ts|
  {
    if i == 0 then Ok(start)
    else
      var nodes :- BookedUpTo(st, start, ts, i - 1);
      st.book(nodes, ts[i - 1].postings)
  }

  /** For each verification of the queue, the number of transactions booked when the loop
      as written checks it: the first transaction from `i` on dated after it, but never two
      checks before one transaction; `|ts|` for those left to the closing loop. */
  function PlanIf(ts: seq<Transaction>, q: seq<Verification>, i: nat): (plan: seq<nat>)
    requires i <= |ts|
    ensures |plan| == |q|
    decreases |ts| - i
  {
    if q == [] then []
    else if i == |ts| then seq(|q|, _ => |ts|)
    else if Lt(q[0].date, ts[i].date) then [i] + PlanIf(ts, q[1..], i + 1)
    else PlanIf(ts, q, i + 1)
  }

  /** The same for the loop with `while`. */
  function PlanWhile(ts: seq<Transaction>, q: seq<Verification>, i: nat): (plan: seq<nat>)
    requires i <= |ts|
    ensures |plan| == |q|
    decreases |ts| - i, |q|
  {
    if q == [] then []
    else if i == |ts| then seq(|q|, _ => |ts|)
    else if Lt(q[0].date, ts[i].date) then [i] + PlanWhile(ts, q[1..], i)
    else PlanWhile(ts, q, i + 1)
  }

  /** The number of transactions from `i` on before the first one dated after `d`. */
  function DueFrom(ts: seq<Transaction>, d: string, i: nat): (k: nat)
    requires i <= |ts|
    ensures i <= k <= |ts|
    decreases |ts| - i
  {
    if i == |ts| then |ts|
    else if Lt(d, ts[i].date) then i
    else DueFrom(ts, d, i + 1)
  }

  /** The index of the first transaction dated after `d`, or `|ts|` when there is none. */
  function Due(ts: seq<Transaction>, d: string): nat {
    DueFrom(ts, d, 0)
  }

  lemma {:induction false} DueFromMeaning(ts: seq<Transaction>, d: string, i: nat)
    requires i <= |ts|
    ensures forall j :: i <= j < DueFrom(ts, d, i) ==> !Lt(d, ts[j].date)
    ensures DueFrom(ts, d, i) < |ts| ==> Lt(d, ts[DueFrom(ts, d, i)].date)
    decreases |ts| - i
  {
    if i < |ts| && !Lt(d, ts[i].date) {
      DueFromMeaning(ts, d, i + 1);
    }
  }

  /** The result of a run, said through a plan: the queue is checked in order, each
      verification against the balances after the planned number of transactions, and the
      final balances are those after all of them. */
  ghost predicate Follows(st: Steps, start: Nodes, ts: seq<Transaction>, q: seq<Verification>, plan: seq<nat>,
                          before: seq<Check>, r: Merge)
    requires |plan| == |q|
  {
    && r.queue == []
    && BookedUpTo(st, start, ts, |ts|) == Ok(r.nodes)
    && |r.checks| == |before| + |q|
    && r.checks[..|before|] == before
    && ChecksAt(st, start, ts, q, plan, r.checks, |before|)
  }

  /** From position `off` on, `checks` holds the check of each verification of `q` against
      the balances after the planned number of transactions. */
  ghost predicate ChecksAt(st: Steps, start: Nodes, ts: seq<Transaction>, q: seq<Verification>, plan: seq<nat>,
                           checks: seq<Check>, off: nat)
    requires |plan| == |q|
  {
    && off + |q| <= |checks|
    && forall k :: 0 <= k < |q| ==>
         plan[k] <= |ts| && BookedUpTo(st, start, ts, plan[k]).Ok?
         && st.check(q[k], BookedUpTo(st, start, ts, plan[k]).value) == Ok(checks[off + k])
  }

  lemma ChecksAtCons(st: Steps, start: Nodes, ts: seq<Transaction>, q: seq<Verification>, n: nat, plan: seq<nat>,
                     checks: seq<Check>, off: nat)
    requires q != [] && |plan| == |q| - 1 && n <= |ts| && off < |checks|
    requires BookedUpTo(st, start, ts, n).Ok? && st.check(q[0], BookedUpTo(st, start, ts, n).value) == Ok(checks[off])
    requires ChecksAt(st, start, ts, q[1..], plan, checks, off + 1)
    ensures ChecksAt(st, start, ts, q, [n] + plan, checks, off)
  {
    var p := [n] + plan;
    forall k | 0 <= k < |q|
      ensures p[k] <= |ts| && BookedUpTo(st, start, ts, p[k]).Ok?
              && st.check(q[k], BookedUpTo(st, start, ts, p[k]).value) == Ok(checks[off + k])
    {
      if k == 0 {
        assert p[0] == n;
      } else {
        assert p[k] == plan[k - 1] && q[k] == q[1..][k - 1];
        assert off + 1 + (k - 1) == off + k;
      }
    }
  }

  lemma {:induction false} DrainFollows(st: Steps, start: Nodes, ts: seq<Transaction>, m: Merge)
    requires BookedUpTo(st, start, ts, |ts|) == Ok(m.nodes) && Drain(st, m).Ok?
    ensures Follows(st, start, ts, m.queue, seq(|m.queue|, _ => |ts|), m.checks, Drain(st, m).value)
    decreases |m.queue|
  {
    if m.queue != [] {
      var c := st.check(m.queue[0], m.nodes).value;
      var m' := Merge(m.nodes, m.checks + [c], m.queue[1..]);
      DrainFollows(st, start, ts, m');
      FollowsCons(st, start, ts, m.queue, |ts|, seq(|m'.queue|, _ => |ts|), m.checks, c, Drain(st, m').value);
      assert [|ts|] + seq(|m'.queue|, _ => |ts|) == seq(|m.queue|, _ => |ts|);
    }
  }

  /** A check of the head of the queue against the balances after `n` transactions, then a
      run that follows the plan for the rest. */
  lemma FollowsCons(st: Steps, start: Nodes, ts: seq<Transaction>, q: seq<Verification>, n: nat, plan: seq<nat>,
                    before: seq<Check>, c: Check, r: Merge)
    requires q != [] && |plan| == |q| - 1 && n <= |ts|
    requires BookedUpTo(st, start, ts, n).Ok? && st.check(q[0], BookedUpTo(st, start, ts, n).value) == Ok(c)
    requires Follows(st, start, ts, q[1..], plan, before + [c], r)
    ensures Follows(st, start, ts, q, [n] + plan, before, r)
  {
    assert r.checks[..|before|] == r.checks[..|before| + 1][..|before|];
    assert r.checks[|before|] == r.checks[..|before| + 1][|before|];
    ChecksAtCons(st, start, ts, q, n, plan, r.checks, |before|);
  }

  /** The loop as written follows PlanIf. */
  lemma {:induction false} RunIfFollows(st: Steps, start: Nodes, ts: seq<Transaction>, m: Merge, i: nat)
    requires i <= |ts| && BookedUpTo(st, start, ts, i) == Ok(m.nodes) && RunIf(st, m, ts, i).Ok?
    ensures Follows(st, start, ts, m.queue, PlanIf(ts, m.queue, i), m.checks, RunIf(st, m, ts, i).value)
    decreases |ts| - i
  {
    if i == |ts| {
      DrainFollows(st, start, ts, m);
      if m.queue != [] {
        assert PlanIf(ts, m.queue, i) == seq(|m.queue|, _ => |ts|);
      }
    } else if m.queue != [] && Lt(m.queue[0].date, ts[i].date) {
      var c := st.check(m.queue[0], m.nodes).value;
      var nodes := st.book(m.nodes, ts[i].postings).value;
      var m' := Merge(nodes, m.checks + [c], m.queue[1..]);
      RunIfFollows(st, start, ts, m', i + 1);
      FollowsCons(st, start, ts, m.queue, i, PlanIf(ts, m.queue[1..], i + 1), m.checks, c, RunIf(st, m', ts, i + 1).value);
    } else {
      var nodes := st.book(m.nodes, ts[i].postings).value;
      RunIfFollows(st, start, ts, Merge(nodes, m.checks, m.queue), i + 1);
    }
  }

  /** The loop with `while` follows PlanWhile. */
  lemma {:induction false} RunWhileFollows(st: Steps, start: Nodes, ts: seq<Transaction>, m: Merge, i: nat)
    requires i <= |ts| && BookedUpTo(st, start, ts, i) == Ok(m.nodes) && RunWhile(st, m, ts, i).Ok?
    ensures Follows(st, start, ts, m.queue, PlanWhile(ts, m.queue, i), m.checks, RunWhile(st, m, ts, i).value)
    decreases |ts| - i, |m.queue|
  {
    if i == |ts| {
      DrainFollows(st, start, ts, m);
      if m.queue != [] {
        assert PlanWhile(ts, m.queue, i) == seq(|m.queue|, _ => |ts|);
      }
    } else if m.queue != [] && Lt(m.queue[0].date, ts[i].date) {
      var c := st.check(m.queue[0], m.nodes).value;
      var m' := Merge(m.nodes, m.checks + [c], m.queue[1..]);
      RunWhileFollows(st, start, ts, m', i);
      FollowsCons(st, start, ts, m.queue, i, PlanWhile(ts, m.queue[1..], i), m.checks, c, RunWhile(st, m', ts, i).value);
    } else {
      var nodes := st.book(m.nodes, ts[i].postings).value;
      RunWhileFollows(st, start, ts, Merge(nodes, m.checks, m.queue), i + 1);
    }
  }

  /** The plan of the loop as written: a verification checked before transaction `k` is
      dated strictly before it, no two are checked before the same transaction, and once
      one is left to the closing loop so are all after it. */
  lemma {:induction false} PlanIfShape(ts: seq<Transaction>, q: seq<Verification>, i: nat)
    requires i <= |ts|
    ensures forall k :: 0 <= k < |q| ==> i <= PlanIf(ts, q, i)[k] <= |ts|
    ensures forall k :: 0 <= k < |q| && PlanIf(ts, q, i)[k] < |ts| ==> Lt(q[k].date, ts[PlanIf(ts, q, i)[k]].date)
    ensures forall k1, k2 :: 0 <= k1 < k2 < |q| ==>
              PlanIf(ts, q, i)[k1] < PlanIf(ts, q, i)[k2] || PlanIf(ts, q, i)[k2] == |ts|
    decreases |ts| - i
  {
    if q != [] && i < |ts| {
      if Lt(q[0].date, ts[i].date) {
        PlanIfShape(ts, q[1..], i + 1);
        var p := PlanIf(ts, q, i);
        assert p == [i] + PlanIf(ts, q[1..], i + 1);
        forall k | 1 <= k < |q|
          ensures p[k] == PlanIf(ts, q[1..], i + 1)[k - 1] && q[k] == q[1..][k - 1]
        {
        }
      } else {
        PlanIfShape(ts, q, i + 1);
      }
    }
  }

  /** With the queue in date order, the loop with `while` checks every verification before
      the first transaction from `i` on dated after it. */
  lemma {:induction false} PlanWhileDue(ts: seq<Transaction>, q: seq<Verification>, i: nat)
    requires i <= |ts| && DateOrdered(q)
    ensures forall k :: 0 <= k < |q| ==> PlanWhile(ts, q, i)[k] == DueFrom(ts, q[k].date, i)
    decreases |ts| - i, |q|
  {
    if q != [] && i < |ts| {
      if Lt(q[0].date, ts[i].date) {
        PlanWhileDue(ts, q[1..], i);
        forall k | 1 <= k < |q|
          ensures PlanWhile(ts, q, i)[k] == DueFrom(ts, q[k].date, i)
        {
          assert q[k] == q[1..][k - 1];
        }
      } else {
        PlanWhileDue(ts, q, i + 1);
        forall k | 0 <= k < |q|
          ensures !Lt(q[k].date, ts[i].date)
        {
          NotLe(ts[i].date, q[0].date);
          if k > 0 {
            LeTransitive(ts[i].date, q[0].date, q[k].date);
          }
          NotLe(ts[i].date, q[k].date);
        }
      }
    }
  }

  /** With the transactions in date order, the transactions before DueFrom are exactly the
      ones from `i` on dated on or before `d`. */
  lemma {:induction false} DueFromSplits(ts: seq<Transaction>, d: string, i: nat)
    requires i <= |ts| && DateSorted(ts)
    ensures forall j :: i <= j < DueFrom(ts, d, i) ==> Le(ts[j].date, d)
    ensures forall j :: DueFrom(ts, d, i) <= j < |ts| ==> Lt(d, ts[j].date)
  {
    DueFromMeaning(ts, d, i);
    var n := DueFrom(ts, d, i);
    forall j | i <= j < n
      ensures Le(ts[j].date, d)
    {
      NotLe(ts[j].date, d);
    }
    forall j | n <= j < |ts|
      ensures Lt(d, ts[j].date)
    {
      AfterDue(ts, d, n, j);
    }
  }

  lemma {:induction false} AfterDue(ts: seq<Transaction>, d: string, n: nat, j: nat)
    requires n <= j < |ts| && DateSorted(ts) && Lt(d, ts[n].date)
    ensures Lt(d, ts[j].date)
    decreases j
  {
    if j > n {
      AfterDue(ts, d, n, j - 1);
      NotLe(ts[j - 1].date, ts[j].date);
      if ts[j - 1].date != ts[j].date {
        LtTransitive(d, ts[j - 1].date, ts[j].date);
      }
    }
  }

  // ---------------------------------------------------------------------------------------
  // verify_balances on the ledger's own tree

  /** The account tree account_tree_from_transactions builds from the transactions. */
  function Start(ts: seq<Transaction>): Nodes {
    EnsuredAll(Root(), AccountComponents(PostingsOf(ts)))
  }

  /** verify_balance for the checks and book_posting on each posting for the bookings. */
  function VerifySteps(verbose: bool): Steps {
    Steps((v, n) => VerifyBalance(v, n, verbose), (n, ps) => BookedAll(n, ps))
  }

  /** verify_balances as written. */
  function Verified(ts: seq<Transaction>, vs: seq<Verification>, verbose: bool): Result<Merge> {
    RunIf(VerifySteps(verbose), Merge(Start(ts), [], SortByDate(vs)), ts, 0)
  }

  /** verify_balances with `while` in place of the `if`. */
  function VerifiedFixed(ts: seq<Transaction>, vs: seq<Verification>, verbose: bool): Result<Merge> {
    RunWhile(VerifySteps(verbose), Merge(Start(ts), [], SortByDate(vs)), ts, 0)
  }

  lemma {:induction false} BookedUpToPostings(verbose: bool, start: Nodes, ts: seq<Transaction>, i: nat)
    requires i <= |ts|
    ensures BookedUpTo(VerifySteps(verbose), start, ts, i) == BookedAll(start, PostingsOf(ts[..i]))
    decreases i
  {
    if i > 0 {
      BookedUpToPostings(verbose, start, ts, i - 1);
      PostingsOfSnoc(ts, i - 1);
      var done := PostingsOf(ts[..i - 1]);
      if BookedAll(start, done).Ok? {
        BookedAllAppend(start, done, ts[i - 1].postings);
      } else {
        BookedAllErr(start, done, ts[i - 1].postings);
      }
    } else {
      assert ts[..0] == [];
    }
  }

  /** Without an as-at date every transaction is selected. */
  lemma {:induction false} SelectedEvery(ts: seq<Transaction>)
    ensures Selected(ts, None) == PostingsOf(ts)
    decreases |ts|
  {
    if ts != [] {
      SelectedEvery(ts[..|ts| - 1]);
    }
  }

  /** What a completed verify_balances means: the final tree is that of calculate_balances
      with no as-at date; there is one check per verification, in date order; and each
      was made against the balances after the number of transactions PlanIf gives. */
  lemma VerifiedMeaning(ts: seq<Transaction>, vs: seq<Verification>, verbose: bool)
    requires Verified(ts, vs, verbose).Ok?
    ensures Calculated(ts, None) == Ok(Verified(ts, vs, verbose).value.nodes)
    ensures |Verified(ts, vs, verbose).value.checks| == |vs|
    ensures forall k :: 0 <= k < |vs| ==>
              Verified(ts, vs, verbose).value.checks[k].verification == SortByDate(vs)[k]
    ensures forall k :: 0 <= k < |vs| ==>
              var n := PlanIf(ts, SortByDate(vs), 0)[k];
              n <= |ts| && BookedAll(Start(ts), PostingsOf(ts[..n])).Ok?
              && VerifyBalance(SortByDate(vs)[k], BookedAll(Start(ts), PostingsOf(ts[..n])).value, verbose)
                   == Ok(Verified(ts, vs, verbose).value.checks[k])
  {
    var st, q := VerifySteps(verbose), SortByDate(vs);
    var r := Verified(ts, vs, verbose).value;
    RunIfFollows(st, Start(ts), ts, Merge(Start(ts), [], q), 0);
    BookedUpToPostings(verbose, Start(ts), ts, |ts|);
    assert ts[..|ts|] == ts;
    SelectedEvery(ts);
    forall k | 0 <= k < |vs|
      ensures var n := PlanIf(ts, q, 0)[k];
              n <= |ts| && BookedAll(Start(ts), PostingsOf(ts[..n])).Ok?
              && VerifyBalance(q[k], BookedAll(Start(ts), PostingsOf(ts[..n])).value, verbose) == Ok(r.checks[k])
    {
      BookedUpToPostings(verbose, Start(ts), ts, PlanIf(ts, q, 0)[k]);
    }
  }

  /** The same with `while`: with the transactions in date order, each verification is
      checked against the balances after exactly the transactions dated on or before it. */
  lemma VerifiedFixedMeaning(ts: seq<Transaction>, vs: seq<Verification>, verbose: bool)
    requires VerifiedFixed(ts, vs, verbose).Ok? && DateSorted(ts)
    ensures Calculated(ts, None) == Ok(VerifiedFixed(ts, vs, verbose).value.nodes)
    ensures |VerifiedFixed(ts, vs, verbose).value.checks| == |vs|
    ensures forall k :: 0 <= k < |vs| ==>
              VerifiedFixed(ts, vs, verbose).value.checks[k].verification == SortByDate(vs)[k]
    ensures forall k :: 0 <= k < |vs| ==>
              var d, n := SortByDate(vs)[k].date, Due(ts, SortByDate(vs)[k].date);
              && (forall j :: 0 <= j < n ==> Le(ts[j].date, d))
              && (forall j :: n <= j < |ts| ==> Lt(d, ts[j].date))
              && BookedAll(Start(ts), PostingsOf(ts[..n])).Ok?
              && VerifyBalance(SortByDate(vs)[k], BookedAll(Start(ts), PostingsOf(ts[..n])).value, verbose)
                   == Ok(VerifiedFixed(ts, vs, verbose).value.checks[k])
  {
    var st, q := VerifySteps(verbose), SortByDate(vs);
    var r := VerifiedFixed(ts, vs, verbose).value;
    SortByDateMeaning(vs);
    RunWhileFollows(st, Start(ts), ts, Merge(Start(ts), [], q), 0);
    PlanWhileDue(ts, q, 0);
    BookedUpToPostings(verbose, Start(ts), ts, |ts|);
    assert ts[..|ts|] == ts;
    SelectedEvery(ts);
    forall k | 0 <= k < |vs|
      ensures var d, n := q[k].date, Due(ts, q[k].date);
              && (forall j :: 0 <= j < n ==> Le(ts[j].date, d))
              && (forall j :: n <= j < |ts| ==> Lt(d, ts[j].date))
              && BookedAll(Start(ts), PostingsOf(ts[..n])).Ok?
              && VerifyBalance(q[k], BookedAll(Start(ts), PostingsOf(ts[..n])).value, verbose) == Ok(r.checks[k])
    {
      DueFromSplits(ts, q[k].date, 0);
      BookedUpToPostings(verbose, Start(ts), ts, Due(ts, q[k].date));
    }
  }

  /** Two verifications dated before both transactions: with `if` the second is only
      checked once the first transaction is booked, with `while` both are checked before
      it. */
  lemma IfChecksLate()
    ensures var ts := [Transaction(1, "2", "", []), Transaction(2, "3", "", [])];
            var q := [Verification("1", "a", Nil), Verification("1", "b", Nil)];
            PlanIf(ts, q, 0) == [0, 1] && PlanWhile(ts, q, 0) == [0, 0]
            && Due(ts, "1") == 0
  {
    var ts := [Transaction(1, "2", "", []), Transaction(2, "3", "", [])];
    var q := [Verification("1", "a", Nil), Verification("1", "b", Nil)];
    assert Lt("1", "2") && Lt("1", "3");
    assert PlanIf(ts, q[1..], 1) == [1];
    assert PlanWhile(ts, q[1..], 0) == [0];
  }

  // ---------------------------------------------------------------------------------------
  // the exit on failure

  /** Some check found a balance other than the expected one. */
  predicate AnyFailed(checks: seq<Check>) {
    exists k :: 0 <= k < |checks| && !checks[k].passed
  }

  /** Whether some check failed, as the flag verify_balance is meant to set. */
  function Failed(checks: seq<Check>): (b: bool)
    ensures b <==> AnyFailed(checks)
    decreases |checks|
  {
    if checks == [] then false
    else
      var b := Failed(checks[1..]);
      assert forall k :: 1 <= k < |checks| ==> checks[1..][k - 1] == checks[k];
      !checks[0].passed || b
  }

  /** The closing `if exit_on_failure and verify_failed` as written: the flag it reads is
      the local of verify_balances, which nothing sets, so the run's result is returned
      whatever the checks found. */
  function ExitAsWritten(run: Result<Merge>, exitOnFailure: bool): (r: Result<Merge>)
    ensures r == run
  {
    var verifyFailed := false;
    if exitOnFailure && verifyFailed then Err(VerificationFailed) else run
  }

  /** The same line as evidently intended: a failed check stops the run when asked to. */
  function Exit(run: Result<Merge>, exitOnFailure: bool): (r: Result<Merge>)
    ensures r.Ok? <==> run.Ok? && !(exitOnFailure && AnyFailed(run.value.checks))
    ensures r.Ok? ==> r == run
    ensures run.Ok? && exitOnFailure && AnyFailed(run.value.checks) ==> r == Err(VerificationFailed)
    ensures run.Err? ==> r == run
  {
    if run.Ok? && exitOnFailure && AnyFailed(run.value.checks) then Err(VerificationFailed) else run
  }

  /** A run with a failed check: as written it still completes, as intended it stops. */
  lemma FailedCheckIgnored()
    ensures var run := Ok(Merge(map[], [Check(Verification("1", "a", Nil), false)], []));
            ExitAsWritten(run, true) == run && Exit(run, true) == Err(VerificationFailed)
  {
    var run := Ok(Merge(map[], [Check(Verification("1", "a", Nil), false)], []));
    assert !run.value.checks[0].passed;
  }

  // ---------------------------------------------------------------------------------------
  // the method

  /** verify_balance on the tree object: find_account, then the check of its balances. */
  method CheckHead(tree: AccountTree, v: Verification, verbose: bool) returns (r: Result<Check>)
    ensures r == VerifyBalance(v, tree.nodes, verbose)
  {
    var found := tree.Find(v.account);
    if found.Err? {
      return Err(found.error);
    }
    var leaf := found.value;
    assert leaf[..|leaf|] == leaf && leaf in Prefixes(leaf);
    r := CheckBalances(v, tree.nodes[leaf].balances, verbose);
  }

  /** One pass of the loop of verify_balances over the transactions, as written: at most
      one verification, the head of the queue, is checked before the postings are booked. */
  method TransactionStep(tree: AccountTree, checks: seq<Check>, queue: seq<Verification>, t: Transaction, verbose: bool)
    returns (r: Outcome, checks': seq<Check>, queue': seq<Verification>)
    modifies tree
    ensures r.Pass? <==> StepIf(VerifySteps(verbose), Merge(old(tree.nodes), checks, queue), t).Ok?
    ensures r.Pass? ==> StepIf(VerifySteps(verbose), Merge(old(tree.nodes), checks, queue), t) == Ok(Merge(tree.nodes, checks', queue'))
    ensures r.Fail? ==> r.error == StepIf(VerifySteps(verbose), Merge(old(tree.nodes), checks, queue), t).error
  {
    checks', queue' := checks, queue;
    if |queue| > 0 && Lt(queue[0].date, t.date) {
      var c := CheckHead(tree, queue[0], verbose);
      if c.Err? {
        r := Fail(c.error);
        return;
      }
      checks' := checks + [c.value];
      queue' := queue[1..];
    }
    r := BookAll(tree, t.postings);
  }

  /** The loop of verify_balances over the transactions, as written: what is left of the
      run is the closing loop on the queue it leaves, unless a check or a booking fails first. */
  method RunTransactions(tree: AccountTree, queue: seq<Verification>, ts: seq<Transaction>, verbose: bool)
    returns (r: Outcome, checks: seq<Check>, rest: seq<Verification>)
    modifies tree
    ensures r.Pass? ==> RunIf(VerifySteps(verbose), Merge(old(tree.nodes), [], queue), ts, 0)
                          == Drain(VerifySteps(verbose), Merge(tree.nodes, checks, rest))
    ensures r.Fail? ==> RunIf(VerifySteps(verbose), Merge(old(tree.nodes), [], queue), ts, 0) == Err(r.error)
  {
    checks, rest := [], queue;
    var i := 0;
    while i != |ts|
      invariant i <= |ts|
      invariant RunIf(VerifySteps(verbose), Merge(tree.nodes, checks, rest), ts, i)
                == RunIf(VerifySteps(verbose), Merge(old(tree.nodes), [], queue), ts, 0)
      decreases |ts| - i
    {
      r, checks, rest := TransactionStep(tree, checks, rest, ts[i], verbose);
      if r.Fail? {
        return;
      }
      i := i + 1;
    }
    r := Pass;
  }

  /** One pass of the loop of verify_balances over the transactions, with `while` in place
      of the `if`: the verifications due before the transaction, then its postings. */
  method TransactionStepFixed(tree: AccountTree, checks: seq<Check>, queue: seq<Verification>, t: Transaction, verbose: bool)
    returns (r: Outcome, checks': seq<Check>, queue': seq<Verification>)
    modifies tree
    ensures r.Pass? <==> StepWhile(VerifySteps(verbose), Merge(old(tree.nodes), checks, queue), t).Ok?
    ensures r.Pass? ==> StepWhile(VerifySteps(verbose), Merge(old(tree.nodes), checks, queue), t) == Ok(Merge(tree.nodes, checks', queue'))
    ensures r.Fail? ==> r.error == StepWhile(VerifySteps(verbose), Merge(old(tree.nodes), checks, queue), t).error
  {
    ghost var st := VerifySteps(verbose);
    ghost var whole := StepWhile(st, Merge(tree.nodes, checks, queue), t);
    checks', queue' := checks, queue;
    while |queue'| > 0 && Lt(queue'[0].date, t.date)
      invariant StepWhile(st, Merge(tree.nodes, checks', queue'), t) == whole
      invariant tree.nodes == old(tree.nodes)
      decreases |queue'|
    {
      var c := CheckHead(tree, queue'[0], verbose);
      if c.Err? {
        r := Fail(c.error);
        return;
      }
      checks' := checks' + [c.value];
      queue' := queue'[1..];
    }
    r := BookAll(tree, t.postings);
  }

  /** The loop of verify_balances over the transactions: what is left of the run is the
      closing loop on the queue it leaves, unless a check or a booking fails first. */
  method RunTransactionsFixed(tree: AccountTree, queue: seq<Verification>, ts: seq<Transaction>, verbose: bool)
    returns (r: Outcome, checks: seq<Check>, rest: seq<Verification>)
    modifies tree
    ensures r.Pass? ==> RunWhile(VerifySteps(verbose), Merge(old(tree.nodes), [], queue), ts, 0)
                          == Drain(VerifySteps(verbose), Merge(tree.nodes, checks, rest))
    ensures r.Fail? ==> RunWhile(VerifySteps(verbose), Merge(old(tree.nodes), [], queue), ts, 0) == Err(r.error)
  {
    checks, rest := [], queue;
    var i := 0;
    while i != |ts|
      invariant i <= |ts|
      invariant RunWhile(VerifySteps(verbose), Merge(tree.nodes, checks, rest), ts, i)
                == RunWhile(VerifySteps(verbose), Merge(old(tree.nodes), [], queue), ts, 0)
      decreases |ts| - i
    {
      RunWhileStep(VerifySteps(verbose), Merge(tree.nodes, checks, rest), ts, i);
      r, checks, rest := TransactionStepFixed(tree, checks, rest, ts[i], verbose);
      if r.Fail? {
        return;
      }
      i := i + 1;
    }
    r := Pass;
  }

  /** The closing loop of verify_balances: every verification left is checked against
      the final tree. */
  method DrainQueue(tree: AccountTree, checks: seq<Check>, queue: seq<Verification>, verbose: bool)
    returns (r: Outcome, checks': seq<Check>)
    ensures r.Pass? <==> Drain(VerifySteps(verbose), Merge(tree.nodes, checks, queue)).Ok?
    ensures r.Pass? ==> Drain(VerifySteps(verbose), Merge(tree.nodes, checks, queue)) == Ok(Merge(tree.nodes, checks', []))
    ensures r.Fail? ==> r.error == Drain(VerifySteps(verbose), Merge(tree.nodes, checks, queue)).error
  {
    ghost var st := VerifySteps(verbose);
    ghost var whole := Drain(st, Merge(tree.nodes, checks, queue));
    checks' := checks;
    var rest := queue;
    while |rest| > 0
      invariant Drain(st, Merge(tree.nodes, checks', rest)) == whole
      decreases |rest|
    {
      var c := CheckHead(tree, rest[0], verbose);
      if c.Err? {
        r := Fail(c.error);
        return;
      }
      checks' := checks' + [c.value];
      rest := rest[1..];
    }
    r := Pass;
  }

  /** verify_balances as written: the verifications sorted by date, the tree of every
      account, then per transaction at most one verification checked and the postings
      booked, and the verifications left checked at the end. The first error stops it; a
      failed check does not. */
  method VerifyBalances(ts: seq<Transaction>, vs: seq<Verification>, verbose: bool, exitOnFailure: bool)
    returns (tree: AccountTree, checks: seq<Check>, r: Outcome)
    ensures fresh(tree)
    ensures r.Pass? <==> ExitAsWritten(Verified(ts, vs, verbose), exitOnFailure).Ok?
    ensures r.Pass? ==> tree.nodes == Verified(ts, vs, verbose).value.nodes && checks == Verified(ts, vs, verbose).value.checks
    ensures r.Fail? ==> r.error == ExitAsWritten(Verified(ts, vs, verbose), exitOnFailure).error
  {
    var verifications := SortByDate(vs);
    tree := AccountTreeFromTransactions(ts);
    var rest;
    r, checks, rest := RunTransactions(tree, verifications, ts, verbose);
    if r.Fail? {
      return;
    }
    r, checks := DrainQueue(tree, checks, rest, verbose);
  }

  /** verify_balances as evidently intended: per transaction every verification due before
      it is checked, and a failed check ends the run when asked to. */
  method VerifyBalancesFixed(ts: seq<Transaction>, vs: seq<Verification>, verbose: bool, exitOnFailure: bool)
    returns (tree: AccountTree, checks: seq<Check>, r: Outcome)
    ensures fresh(tree)
    ensures r.Pass? <==> Exit(VerifiedFixed(ts, vs, verbose), exitOnFailure).Ok?
    ensures r.Pass? ==> tree.nodes == VerifiedFixed(ts, vs, verbose).value.nodes && checks == VerifiedFixed(ts, vs, verbose).value.checks
    ensures r.Fail? ==> r.error == Exit(VerifiedFixed(ts, vs, verbose), exitOnFailure).error
  {
    var verifications := SortByDate(vs);
    tree := AccountTreeFromTransactions(ts);
    var rest;
    r, checks, rest := RunTransactionsFixed(tree, verifications, ts, verbose);
    if r.Fail? {
      return;
    }
    r, checks := DrainQueue(tree, checks, rest, verbose);
    if r.Pass? && exitOnFailure && Failed(checks) {
      r := Fail(VerificationFailed);
    }
  }
}
