/** The balance engine: the account tree built from the journal's account strings, and the
    balances booked onto it. The folds below go from the back of their sequence, so that
    one more element at the end, which is what each loop iteration adds, is one more step
    of the fold. */
module Engine {
  import opened Text
  import opened Results
  import opened Accounts
  import opened Amounts
  import opened Journal
  import opened Tree

  /** The tree `_make_account('')` starts with: the root alone. */
  function Root(): map<Path, Account> {
    map[[] := MakeAccount("")]
  }

  // ---------------------------------------------------------------- building the tree

  /** Every account's canonical path is as long as its list of original pieces, and
      has at least one component. */
  ghost predicate Shaped(cs: seq<Components>) {
    forall i :: 0 <= i < |cs| ==> 1 <= |cs[i].regular| == |cs[i].original|
  }

  /** The components of each account string. */
  function ComponentsOf(ss: seq<string>): (cs: seq<Components>)
    ensures |cs| == |ss| && Shaped(cs)
    ensures forall i :: 0 <= i < |ss| ==> cs[i] == AccountStringComponents(ss[i])
  {
    seq(|ss|, i requires 0 <= i < |ss| => AccountStringComponents(ss[i]))
  }

  /** _ensure_sub_accounts on each account in turn. */
  function EnsuredAll(nodes: map<Path, Account>, cs: seq<Components>): map<Path, Account>
    decreases |cs|
  {
    if cs == [] then nodes
    else
      var c := cs[|cs| - 1];
      Ensured(EnsuredAll(nodes, cs[..|cs| - 1]), c.regular, c.original)
  }

  /** What one _ensure_sub_accounts does at one path. */
  lemma EnsuredAt(nodes: map<Path, Account>, regular: Path, original: seq<string>, p: Path)
    requires 1 <= |regular| == |original|
    ensures p in Ensured(nodes, regular, original) <==> p in nodes || OnPath(p, regular)
    ensures p in nodes ==>
              Ensured(nodes, regular, original)[p]
              == if p == regular then nodes[p].(hasOwnPostings := true) else nodes[p]
    ensures p !in nodes && OnPath(p, regular) ==>
              1 <= |p| <= |original|
              && Ensured(nodes, regular, original)[p] == Account(original[|p| - 1], map[], p == regular)
  {
    PrefixesOnPath(p, regular);
  }

  /** Some account's path passes through `p`. */
  ghost predicate Passes(cs: seq<Components>, p: Path) {
    exists i :: 0 <= i < |cs| && OnPath(p, cs[i].regular)
  }

  /** Some account's path ends at `p`. */
  ghost predicate EndsAt(cs: seq<Components>, p: Path) {
    exists i :: 0 <= i < |cs| && cs[i].regular == p
  }

  lemma PassesSnoc(cs: seq<Components>, p: Path)
    requires cs != []
    ensures Passes(cs, p) <==> Passes(cs[..|cs| - 1], p) || OnPath(p, cs[|cs| - 1].regular)
  {
    var init := cs[..|cs| - 1];
    if Passes(cs, p) && !OnPath(p, cs[|cs| - 1].regular) {
      var i :| 0 <= i < |cs| && OnPath(p, cs[i].regular);
      assert init[i] == cs[i];
    }
    if Passes(init, p) {
      var i :| 0 <= i < |init| && OnPath(p, init[i].regular);
      assert init[i] == cs[i];
    }
  }

  lemma EndsAtSnoc(cs: seq<Components>, p: Path)
    requires cs != []
    ensures EndsAt(cs, p) <==> EndsAt(cs[..|cs| - 1], p) || cs[|cs| - 1].regular == p
  {
    var init := cs[..|cs| - 1];
    if EndsAt(cs, p) && cs[|cs| - 1].regular != p {
      var i :| 0 <= i < |cs| && cs[i].regular == p;
      assert init[i] == cs[i];
    }
    if EndsAt(init, p) {
      var i :| 0 <= i < |init| && init[i].regular == p;
      assert init[i] == cs[i];
    }
  }

  /** An account that ends at `p` passes through it. */
  lemma EndsAtPasses(cs: seq<Components>, p: Path)
    requires Shaped(cs) && EndsAt(cs, p)
    ensures Passes(cs, p)
  {
    var i :| 0 <= i < |cs| && cs[i].regular == p;
    assert p[..|p|] == p;
    assert OnPath(p, cs[i].regular);
  }

  /** The tree holds the nodes it started with and every node on the path of every
      account, and nothing else. */
  lemma {:induction false} EnsuredAllKeys(nodes: map<Path, Account>, cs: seq<Components>, p: Path)
    requires Shaped(cs)
    ensures p in EnsuredAll(nodes, cs) <==> p in nodes || Passes(cs, p)
    decreases |cs|
  {
    if cs != [] {
      var n := |cs| - 1;
      EnsuredAllKeys(nodes, cs[..n], p);
      EnsuredAt(EnsuredAll(nodes, cs[..n]), cs[n].regular, cs[n].original, p);
      PassesSnoc(cs, p);
    }
  }

  /** The nodes it started with keep their spelling and balances. */
  lemma {:induction false} EnsuredAllKept(nodes: map<Path, Account>, cs: seq<Components>, p: Path)
    requires Shaped(cs) && p in nodes
    ensures p in EnsuredAll(nodes, cs)
    ensures EnsuredAll(nodes, cs)[p].name == nodes[p].name
    ensures EnsuredAll(nodes, cs)[p].balances == nodes[p].balances
    decreases |cs|
  {
    if cs != [] {
      var n := |cs| - 1;
      EnsuredAllKept(nodes, cs[..n], p);
      EnsuredAt(EnsuredAll(nodes, cs[..n]), cs[n].regular, cs[n].original, p);
    }
  }

  /** A node that was not there is made by the first account whose path passes through it,
      with that account's spelling of its component and no balance. */
  lemma {:induction false} EnsuredAllNew(nodes: map<Path, Account>, cs: seq<Components>, p: Path)
    requires Shaped(cs) && p in EnsuredAll(nodes, cs) && p !in nodes
    ensures EnsuredAll(nodes, cs)[p].balances == map[]
    ensures exists i :: 0 <= i < |cs| && OnPath(p, cs[i].regular) && !Passes(cs[..i], p)
              && 1 <= |p| <= |cs[i].original|
              && EnsuredAll(nodes, cs)[p].name == cs[i].original[|p| - 1]
    decreases |cs|
  {
    var n := |cs| - 1;
    var init := cs[..n];
    var before := EnsuredAll(nodes, init);
    EnsuredAt(before, cs[n].regular, cs[n].original, p);
    if p in before {
      EnsuredAllNew(nodes, init, p);
      var i :| 0 <= i < n && OnPath(p, init[i].regular) && !Passes(init[..i], p)
               && 1 <= |p| <= |init[i].original|
               && before[p].name == init[i].original[|p| - 1];
      SlicePrefix(cs, n, i);
    } else {
      EnsuredAllKeys(nodes, init, p);
      assert OnPath(p, cs[n].regular);
    }
  }

  /** A node has its own postings exactly when it did before or some account ends at it. */
  lemma {:induction false} EnsuredAllFlags(nodes: map<Path, Account>, cs: seq<Components>, p: Path)
    requires Shaped(cs) && p in EnsuredAll(nodes, cs)
    ensures EnsuredAll(nodes, cs)[p].hasOwnPostings <==> (p in nodes && nodes[p].hasOwnPostings) || EndsAt(cs, p)
    decreases |cs|
  {
    if cs != [] {
      var n := |cs| - 1;
      var init := cs[..n];
      var before := EnsuredAll(nodes, init);
      EnsuredAt(before, cs[n].regular, cs[n].original, p);
      EndsAtSnoc(cs, p);
      if p in before {
        EnsuredAllFlags(nodes, init, p);
      } else {
        EnsuredAllKeys(nodes, init, p);
        if EndsAt(init, p) {
          EndsAtPasses(init, p);
        }
      }
    }
  }

  /** The tree stays closed under parents. */
  lemma {:induction false} EnsuredAllClosed(nodes: map<Path, Account>, cs: seq<Components>)
    requires Shaped(cs) && PrefixClosed(nodes)
    ensures PrefixClosed(EnsuredAll(nodes, cs))
    decreases |cs|
  {
    if cs != [] {
      var n := |cs| - 1;
      EnsuredAllClosed(nodes, cs[..n]);
      EnsuredMeaning(EnsuredAll(nodes, cs[..n]), cs[n].regular, cs[n].original);
    }
  }

  /** The postings of the transactions, in order. */
  function PostingsOf(ts: seq<Transaction>): seq<Posting>
    decreases |ts|
  {
    if ts == [] then [] else PostingsOf(ts[..|ts| - 1]) + ts[|ts| - 1].postings
  }

  /** The components of each posting's account. */
  function AccountComponents(ps: seq<Posting>): (cs: seq<Components>)
    ensures |cs| == |ps| && Shaped(cs)
    ensures forall i :: 0 <= i < |ps| ==> cs[i] == AccountStringComponents(ps[i].account)
  {
    seq(|ps|, i requires 0 <= i < |ps| => AccountStringComponents(ps[i].account))
  }

  lemma EnsuredAllSnoc(nodes: map<Path, Account>, cs: seq<Components>, c: Components)
    ensures EnsuredAll(nodes, cs + [c]) == Ensured(EnsuredAll(nodes, cs), c.regular, c.original)
  {
    assert (cs + [c])[..|cs|] == cs;
  }

  lemma ComponentsSnoc(ss: seq<string>, i: nat)
    requires i < |ss|
    ensures ComponentsOf(ss[..i + 1]) == ComponentsOf(ss[..i]) + [AccountStringComponents(ss[i])]
  {
    var a := ComponentsOf(ss[..i + 1]);
    var b := ComponentsOf(ss[..i]) + [AccountStringComponents(ss[i])];
    assert |a| == |b|;
    forall k | 0 <= k < |a| ensures a[k] == b[k] {
      assert ss[..i + 1][k] == ss[k];
    }
  }

  lemma AccountComponentsSnoc(ps: seq<Posting>, p: Posting)
    ensures AccountComponents(ps + [p]) == AccountComponents(ps) + [AccountStringComponents(p.account)]
  {
    var a := AccountComponents(ps + [p]);
    var b := AccountComponents(ps) + [AccountStringComponents(p.account)];
    assert |a| == |b|;
    forall k | 0 <= k < |a| ensures a[k] == b[k] {
      assert (ps + [p])[k] == if k < |ps| then ps[k] else p;
    }
  }

  lemma PostingsOfSnoc(ts: seq<Transaction>, i: nat)
    requires i < |ts|
    ensures PostingsOf(ts[..i + 1]) == PostingsOf(ts[..i]) + ts[i].postings
  {
    assert ts[..i + 1][..i] == ts[..i];
  }

  /** One more posting of the current transaction. */
  lemma PendStep(done: seq<Posting>, ps: seq<Posting>, j: nat)
    requires j < |ps|
    ensures done + ps[..j] + [ps[j]] == done + ps[..j + 1]
  {
    SliceStep(ps, j);
    AppendAssoc(done, ps[..j], [ps[j]]);
  }

  /** One more posting's account in account_tree_from_transactions. */
  lemma BuildStep(done: seq<Posting>, ps: seq<Posting>, j: nat)
    requires j < |ps|
    ensures Ensured(EnsuredAll(Root(), AccountComponents(done + ps[..j])), Regular(ps[j].account), Split(ps[j].account, ':'))
         == EnsuredAll(Root(), AccountComponents(done + ps[..j + 1]))
  {
    EnsureByComponents(EnsuredAll(Root(), AccountComponents(done + ps[..j])), ps[j].account);
    AccountComponentsSnoc(done + ps[..j], ps[j]);
    EnsuredAllSnoc(Root(), AccountComponents(done + ps[..j]), AccountStringComponents(ps[j].account));
    PendStep(done, ps, j);
  }

  /** An account string's walk, as _ensure_sub_accounts on its components. */
  lemma EnsureByComponents(nodes: map<Path, Account>, s: string)
    ensures Ensured(nodes, Regular(s), Split(s, ':'))
         == Ensured(nodes, AccountStringComponents(s).regular, AccountStringComponents(s).original)
  {
  }

  /** account_tree_from_account_strings: a fresh tree, then _ensure_sub_accounts on each
      account string. The ledger hands back the root's children; here the tree is returned
      whole, root included. */
  method AccountTreeFromAccountStrings(ss: seq<string>) returns (tree: AccountTree)
    ensures fresh(tree)
    ensures tree.nodes == EnsuredAll(Root(), ComponentsOf(ss))
    ensures tree.Valid()
  {
    tree := new AccountTree();
    var i := 0;
    while i < |ss|
      invariant 0 <= i <= |ss|
      invariant tree.nodes == EnsuredAll(Root(), ComponentsOf(ss[..i]))
      invariant tree.Valid()
    {
      ghost var before := tree.nodes;
      tree.EnsureSubAccounts(ss[i]);
      EnsureByComponents(before, ss[i]);
      ComponentsSnoc(ss, i);
      EnsuredAllSnoc(Root(), ComponentsOf(ss[..i]), AccountStringComponents(ss[i]));
      i := i + 1;
    }
    assert ss[..|ss|] == ss;
  }

  /** account_tree_from_transactions: a fresh tree, then _ensure_sub_accounts on the account
      of every posting of every transaction. */
  method AccountTreeFromTransactions(ts: seq<Transaction>) returns (tree: AccountTree)
    ensures fresh(tree)
    ensures tree.nodes == EnsuredAll(Root(), AccountComponents(PostingsOf(ts)))
    ensures tree.Valid()
  {
    tree := new AccountTree();
    var i := 0;
    while i < |ts|
      invariant 0 <= i <= |ts|
      invariant tree.nodes == EnsuredAll(Root(), AccountComponents(PostingsOf(ts[..i])))
      invariant tree.Valid()
    {
      var ps := ts[i].postings;
      ghost var done := PostingsOf(ts[..i]);
      var j := 0;
      assert done + ps[..0] == done;
      while j < |ps|
        invariant 0 <= j <= |ps|
        invariant tree.nodes == EnsuredAll(Root(), AccountComponents(done + ps[..j]))
        invariant tree.Valid()
      {
        BuildStep(done, ps, j);
        tree.EnsureSubAccounts(ps[j].account);
        j := j + 1;
      }
      assert ps[..|ps|] == ps;
      PostingsOfSnoc(ts, i);
      i := i + 1;
    }
    assert ts[..|ts|] == ts;
  }

  // ---------------------------------------------------------------- booking

  /** book_posting on each posting in turn, stopping at the first that fails. */
  function BookedAll(nodes: map<Path, Account>, ps: seq<Posting>): Result<map<Path, Account>>
    decreases |ps|
  {
    if ps == [] then Ok(nodes)
    else
      var m :- BookedAll(nodes, ps[..|ps| - 1]);
      Booked(m, ps[|ps| - 1])
  }

  /** The postings that reach the node at `q`: those whose account's path passes through it. */
  function Under(ps: seq<Posting>, q: Path): seq<Posting>
    decreases |ps|
  {
    if ps == [] then []
    else
      var p := ps[|ps| - 1];
      Under(ps[..|ps| - 1], q) + if OnPath(q, Regular(p.account)) then [p] else []
  }

  /** The balances after each posting's amount is added to `b` in the posting's units. */
  function Credited(b: Balances, ps: seq<Posting>): Balances
    decreases |ps|
  {
    if ps == [] then b
    else
      var p := ps[|ps| - 1];
      var c := Credited(b, ps[..|ps| - 1]);
      if p.amount.Nil? then c else Add(c, p.amount.units, p.amount.quantity)
  }

  /** The reference sum: the quantities of the postings in `units`. */
  function UnitQuantity(ps: seq<Posting>, units: string): int
    decreases |ps|
  {
    if ps == [] then 0
    else
      var p := ps[|ps| - 1];
      UnitQuantity(ps[..|ps| - 1], units) + if p.amount.Amount? && p.amount.units == units then p.amount.quantity else 0
  }

  /** Some posting has an amount in `units`. */
  ghost predicate HasUnits(ps: seq<Posting>, units: string) {
    exists i :: 0 <= i < |ps| && ps[i].amount.Amount? && ps[i].amount.units == units
  }

  lemma HasUnitsSnoc(ps: seq<Posting>, units: string)
    requires ps != []
    ensures HasUnits(ps, units)
            <==> HasUnits(ps[..|ps| - 1], units) || (ps[|ps| - 1].amount.Amount? && ps[|ps| - 1].amount.units == units)
  {
    var init := ps[..|ps| - 1];
    if HasUnits(ps, units) && !(ps[|ps| - 1].amount.Amount? && ps[|ps| - 1].amount.units == units) {
      var i :| 0 <= i < |ps| && ps[i].amount.Amount? && ps[i].amount.units == units;
      assert init[i] == ps[i];
    }
    if HasUnits(init, units) {
      var i :| 0 <= i < |init| && init[i].amount.Amount? && init[i].amount.units == units;
      assert init[i] == ps[i];
    }
  }

  /** Credited adds up, unit by unit: a unit has a balance exactly when it had one or some
      posting is in it, and the balance is the old one plus the postings' quantities. */
  lemma {:induction false} CreditedSums(b: Balances, ps: seq<Posting>, units: string)
    ensures units in Credited(b, ps) <==> units in b || HasUnits(ps, units)
    ensures units in Credited(b, ps) ==>
              Credited(b, ps)[units] == (if units in b then b[units] else 0) + UnitQuantity(ps, units)
    ensures !HasUnits(ps, units) ==> UnitQuantity(ps, units) == 0
    decreases |ps|
  {
    if ps != [] {
      var p := ps[|ps| - 1];
      var c := Credited(b, ps[..|ps| - 1]);
      CreditedSums(b, ps[..|ps| - 1], units);
      HasUnitsSnoc(ps, units);
      if p.amount.Amount? && p.amount.units == units {
        assert Credited(b, ps)[units] == (if units in c then c[units] else 0) + p.amount.quantity;
      } else {
        assert units in Credited(b, ps) <==> units in c;
        assert units in c ==> Credited(b, ps)[units] == c[units];
      }
    }
  }

  /** What booking one posting does at one node. */
  lemma BookingAt(nodes: map<Path, Account>, leaf: Path, units: string, quantity: int, q: Path)
    requires leaf in nodes && q in nodes
    ensures q in Booking(nodes, leaf, units, quantity)
    ensures Booking(nodes, leaf, units, quantity)[q].name == nodes[q].name
    ensures Booking(nodes, leaf, units, quantity)[q].hasOwnPostings == (nodes[q].hasOwnPostings || q == leaf)
    ensures Booking(nodes, leaf, units, quantity)[q].balances
            == if OnPath(q, leaf) then Add(nodes[q].balances, units, quantity) else nodes[q].balances
  {
    PrefixesOnPath(q, leaf);
  }

  /** Booking keeps the nodes. */
  lemma {:induction false} BookedAllKeys(nodes: map<Path, Account>, ps: seq<Posting>)
    requires BookedAll(nodes, ps).Ok?
    ensures BookedAll(nodes, ps).value.Keys == nodes.Keys
    decreases |ps|
  {
    if ps != [] {
      var n := |ps| - 1;
      BookedAllKeys(nodes, ps[..n]);
      var m := BookedAll(nodes, ps[..n]).value;
      BookedCases(m, ps[n]);
      BookingMeaning(m, Regular(ps[n].account), ps[n].amount.units, ps[n].amount.quantity);
    }
  }

  /** Every posting can be booked when it has an amount and its account's node is there;
      in a tree closed under parents that is also the only way. */
  ghost predicate CanBook(nodes: map<Path, Account>, p: Posting) {
    p.amount.Amount? && Regular(p.account) in nodes
  }

  lemma {:induction false} BookedAllOk(nodes: map<Path, Account>, ps: seq<Posting>)
    requires PrefixClosed(nodes)
    ensures BookedAll(nodes, ps).Ok? <==> forall i :: 0 <= i < |ps| ==> CanBook(nodes, ps[i])
    decreases |ps|
  {
    if ps != [] {
      var n := |ps| - 1;
      var init := ps[..n];
      BookedAllOk(nodes, init);
      AllCanBookSnoc(nodes, ps, init);
      if BookedAll(nodes, init).Ok? {
        var m := BookedAll(nodes, init).value;
        assert BookedAll(nodes, ps) == Booked(m, ps[n]);
        BookedAllKeys(nodes, init);
        assert PrefixClosed(m);
        BookedCases(m, ps[n]);
        FindAccountCases(m, ps[n].account);
        assert CanBook(m, ps[n]) <==> CanBook(nodes, ps[n]);
      } else {
        assert BookedAll(nodes, ps).Err?;
      }
    }
  }

  lemma AllCanBookSnoc(nodes: map<Path, Account>, ps: seq<Posting>, init: seq<Posting>)
    requires ps != [] && init == ps[..|ps| - 1]
    ensures (forall i :: 0 <= i < |ps| ==> CanBook(nodes, ps[i]))
        <==> (forall i :: 0 <= i < |init| ==> CanBook(nodes, init[i])) && CanBook(nodes, ps[|ps| - 1])
  {
    assert forall i :: 0 <= i < |init| ==> init[i] == ps[i];
  }

  /** The first posting that cannot be booked stops the booking with its error. */
  lemma {:induction false} BookedAllErr(nodes: map<Path, Account>, a: seq<Posting>, b: seq<Posting>)
    requires BookedAll(nodes, a).Err?
    ensures BookedAll(nodes, a + b) == BookedAll(nodes, a)
    decreases |b|
  {
    if b != [] {
      var n := |b| - 1;
      assert (a + b)[..|a + b| - 1] == a + b[..n];
      BookedAllErr(nodes, a, b[..n]);
      assert BookedAll(nodes, a + b[..n]).Err?;
      assert BookedAll(nodes, a + b) == Err(BookedAll(nodes, a + b[..n]).error);
    } else {
      assert a + b == a;
    }
  }

  lemma BookedAllSnoc(nodes: map<Path, Account>, ps: seq<Posting>, p: Posting)
    ensures BookedAll(nodes, ps + [p]) == if BookedAll(nodes, ps).Err? then BookedAll(nodes, ps)
                                         else Booked(BookedAll(nodes, ps).value, p)
  {
    assert (ps + [p])[..|ps|] == ps;
  }

  /** Each node's balances are its old ones credited with the postings that reach it, and
      its spelling does not change. */
  lemma {:induction false} BookedAllBalances(nodes: map<Path, Account>, ps: seq<Posting>, q: Path)
    requires BookedAll(nodes, ps).Ok? && q in nodes
    ensures q in BookedAll(nodes, ps).value
    ensures BookedAll(nodes, ps).value[q].name == nodes[q].name
    ensures BookedAll(nodes, ps).value[q].balances == Credited(nodes[q].balances, Under(ps, q))
    decreases |ps|
  {
    if ps != [] {
      var n := |ps| - 1;
      var init := ps[..n];
      BookedAllBalances(nodes, init, q);
      var m := BookedAll(nodes, init).value;
      BookedCases(m, ps[n]);
      BookingAt(m, Regular(ps[n].account), ps[n].amount.units, ps[n].amount.quantity, q);
      if OnPath(q, Regular(ps[n].account)) {
        CreditedSnoc(nodes[q].balances, Under(init, q), ps[n]);
      } else {
        CreditedNone(nodes[q].balances, Under(init, q));
      }
    }
  }

  lemma CreditedSnoc(b: Balances, ps: seq<Posting>, p: Posting)
    ensures Credited(b, ps + [p]) == if p.amount.Nil? then Credited(b, ps) else Add(Credited(b, ps), p.amount.units, p.amount.quantity)
  {
    assert (ps + [p])[..|ps|] == ps;
  }

  lemma CreditedNone(b: Balances, ps: seq<Posting>)
    ensures Credited(b, ps + []) == Credited(b, ps)
  {
    assert ps + [] == ps;
  }

  /** Some posting's account ends at `q`. */
  ghost predicate Books(ps: seq<Posting>, q: Path) {
    exists i :: 0 <= i < |ps| && Regular(ps[i].account) == q
  }

  lemma BooksSnoc(ps: seq<Posting>, init: seq<Posting>, q: Path)
    requires ps != [] && init == ps[..|ps| - 1]
    ensures Books(ps, q) <==> Books(init, q) || Regular(ps[|ps| - 1].account) == q
  {
    assert forall i :: 0 <= i < |init| ==> init[i] == ps[i];
    if Books(ps, q) && Regular(ps[|ps| - 1].account) != q {
      var i :| 0 <= i < |ps| && Regular(ps[i].account) == q;
      assert Regular(init[i].account) == q;
    }
  }

  /** Booking marks a node exactly when it was marked or some posting's account ends at it. */
  lemma {:induction false} BookedAllFlags(nodes: map<Path, Account>, ps: seq<Posting>, q: Path)
    requires BookedAll(nodes, ps).Ok? && q in nodes
    ensures q in BookedAll(nodes, ps).value
    ensures BookedAll(nodes, ps).value[q].hasOwnPostings <==> nodes[q].hasOwnPostings || Books(ps, q)
    decreases |ps|
  {
    if ps != [] {
      var n := |ps| - 1;
      var init := ps[..n];
      BookedAllFlags(nodes, init, q);
      BooksSnoc(ps, init, q);
      var m := BookedAll(nodes, init).value;
      BookedAllKeys(nodes, init);
      BookedCases(m, ps[n]);
      BookingAt(m, Regular(ps[n].account), ps[n].amount.units, ps[n].amount.quantity, q);
    }
  }

  // ---------------------------------------------------------------- calculate_balances

  /** `(not as_at_date) or (transaction['date'] <= as_at_date)`: no date, or the empty one,
      takes every transaction. */
  predicate Included(t: Transaction, asAt: Option<string>) {
    asAt.None? || asAt.value == "" || Le(t.date, asAt.value)
  }

  /** The postings calculate_balances books: those of the included transactions, in order. */
  function Selected(ts: seq<Transaction>, asAt: Option<string>): seq<Posting>
    decreases |ts|
  {
    if ts == [] then []
    else
      var t := ts[|ts| - 1];
      Selected(ts[..|ts| - 1], asAt) + if Included(t, asAt) then t.postings else []
  }

  /** calculate_balances: the tree of every posting's account, with the selected postings
      booked onto it. */
  function Calculated(ts: seq<Transaction>, asAt: Option<string>): Result<map<Path, Account>> {
    BookedAll(EnsuredAll(Root(), AccountComponents(PostingsOf(ts))), Selected(ts, asAt))
  }

  lemma {:induction false} SelectedAppend(x: seq<Transaction>, y: seq<Transaction>, asAt: Option<string>)
    ensures Selected(x + y, asAt) == Selected(x, asAt) + Selected(y, asAt)
    decreases |y|
  {
    if y == [] {
      assert x + y == x;
    } else {
      var n := |y| - 1;
      assert (x + y)[..|x + y| - 1] == x + y[..n];
      SelectedAppend(x, y[..n], asAt);
      var tail := if Included(y[n], asAt) then y[n].postings else [];
      AppendAssoc(Selected(x, asAt), Selected(y[..n], asAt), tail);
    }
  }

  lemma SelectedStep(ts: seq<Transaction>, i: nat, asAt: Option<string>)
    requires i < |ts|
    ensures Selected(ts[..i + 1], asAt) == Selected(ts[..i], asAt) + if Included(ts[i], asAt) then ts[i].postings else []
  {
    assert ts[..i + 1][..i] == ts[..i];
  }

  /** Booking `a + b` is booking `a`, then `b` on what that left. */
  lemma {:induction false} BookedAllAppend(nodes: map<Path, Account>, a: seq<Posting>, b: seq<Posting>)
    requires BookedAll(nodes, a).Ok?
    ensures BookedAll(nodes, a + b) == BookedAll(BookedAll(nodes, a).value, b)
    decreases |b|
  {
    var m := BookedAll(nodes, a).value;
    if b == [] {
      assert a + b == a;
    } else {
      var init, x := b[..|b| - 1], b[|b| - 1];
      assert b == init + [x];
      AppendAssoc(a, init, [x]);
      BookedAllAppend(nodes, a, init);
      BookedAllSnoc(nodes, a + init, x);
      BookedAllSnoc(m, init, x);
    }
  }

  /** The loop over one transaction's postings in calculate_balances: book_posting on each,
      stopping at the first that fails. */
  method BookAll(tree: AccountTree, ps: seq<Posting>) returns (r: Outcome)
    modifies tree
    ensures r.Pass? <==> BookedAll(old(tree.nodes), ps).Ok?
    ensures r.Pass? ==> tree.nodes == BookedAll(old(tree.nodes), ps).value
    ensures r.Fail? ==> r.error == BookedAll(old(tree.nodes), ps).error
  {
    var j := 0;
    while j < |ps|
      invariant 0 <= j <= |ps|
      invariant BookedAll(old(tree.nodes), ps[..j]) == Ok(tree.nodes)
    {
      BookedAllSnoc(old(tree.nodes), ps[..j], ps[j]);
      SliceStep(ps, j);
      r := tree.BookPosting(ps[j]);
      if r.Fail? {
        BookedAllErr(old(tree.nodes), ps[..j + 1], ps[j + 1..]);
        assert ps[..j + 1] + ps[j + 1..] == ps;
        return;
      }
      j := j + 1;
    }
    assert ps[..|ps|] == ps;
    r := Pass;
  }

  /** One transaction's bookings in calculate_balances: an included transaction books its
      postings on the balances so far, any other leaves them as they are. */
  function BookedTransaction(nodes: map<Path, Account>, t: Transaction, asAt: Option<string>): Result<map<Path, Account>> {
    if Included(t, asAt) then BookedAll(nodes, t.postings) else Ok(nodes)
  }

  /** The bookings of the first `i + 1` selected transactions are those of the first `i`,
      then those of transaction `i`. */
  lemma CalculatedStep(ts: seq<Transaction>, asAt: Option<string>, i: nat, start: map<Path, Account>, before: map<Path, Account>)
    requires i < |ts| && BookedAll(start, Selected(ts[..i], asAt)) == Ok(before)
    ensures BookedAll(start, Selected(ts[..i + 1], asAt)) == BookedTransaction(before, ts[i], asAt)
  {
    SelectedStep(ts, i, asAt);
    BookedAllAppend(start, Selected(ts[..i], asAt), if Included(ts[i], asAt) then ts[i].postings else []);
  }

  /** A transaction whose bookings fail stops calculate_balances with that error. */
  lemma CalculatedStops(ts: seq<Transaction>, asAt: Option<string>, i: nat, start: map<Path, Account>)
    requires i < |ts|
    requires BookedAll(start, Selected(ts[..i + 1], asAt)).Err?
    ensures BookedAll(start, Selected(ts, asAt)) == BookedAll(start, Selected(ts[..i + 1], asAt))
  {
    assert ts == ts[..i + 1] + ts[i + 1..];
    SelectedAppend(ts[..i + 1], ts[i + 1..], asAt);
    BookedAllErr(start, Selected(ts[..i + 1], asAt), Selected(ts[i + 1..], asAt));
  }

  /** The body of the loop of calculate_balances: the postings of a transaction dated on or
      before `asAt` (or of any transaction when there is no `asAt`) are booked in order. */
  method BookTransaction(tree: AccountTree, t: Transaction, asAt: Option<string>) returns (r: Outcome)
    modifies tree
    ensures r.Pass? <==> BookedTransaction(old(tree.nodes), t, asAt).Ok?
    ensures r.Pass? ==> tree.nodes == BookedTransaction(old(tree.nodes), t, asAt).value
    ensures r.Fail? ==> r.error == BookedTransaction(old(tree.nodes), t, asAt).error
  {
    if asAt.None? || asAt.value == "" || Le(t.date, asAt.value) {
      r := BookAll(tree, t.postings);
    } else {
      r := Pass;
    }
  }

  /** The loop of calculate_balances over the transactions, stopping at the first posting
      that fails to book. */
  method BookSelected(tree: AccountTree, ts: seq<Transaction>, asAt: Option<string>) returns (r: Outcome)
    modifies tree
    ensures r.Pass? <==> BookedAll(old(tree.nodes), Selected(ts, asAt)).Ok?
    ensures r.Pass? ==> tree.nodes == BookedAll(old(tree.nodes), Selected(ts, asAt)).value
    ensures r.Fail? ==> r.error == BookedAll(old(tree.nodes), Selected(ts, asAt)).error
  {
    ghost var start := tree.nodes;
    ghost var cur := start;
    var i := 0;
    while i < |ts|
      invariant 0 <= i <= |ts|
      invariant cur == tree.nodes
      invariant BookedAll(start, Selected(ts[..i], asAt)) == Ok(cur)
    {
      CalculatedStep(ts, asAt, i, start, cur);
      r := BookTransaction(tree, ts[i], asAt);
      if r.Fail? {
        CalculatedStops(ts, asAt, i, start);
        return;
      }
      cur := tree.nodes;
      i := i + 1;
    }
    assert ts[..|ts|] == ts;
    r := Pass;
  }

  /** calculate_balances: the tree of every account the transactions name, then the bookings
      of the transactions dated on or before `asAt`. A posting without an amount stops it, as
      `amount['units']` does in the ledger; the tree it leaves behind is then not specified. */
  method CalculateBalances(ts: seq<Transaction>, asAt: Option<string>) returns (tree: AccountTree, r: Outcome)
    ensures fresh(tree)
    ensures r.Pass? <==> Calculated(ts, asAt).Ok?
    ensures r.Pass? ==> tree.nodes == Calculated(ts, asAt).value
    ensures r.Fail? ==> r.error == Calculated(ts, asAt).error
  {
    tree := AccountTreeFromTransactions(ts);
    r := BookSelected(tree, ts, asAt);
  }

  /** Every account a posting names is in the tree built from the postings. */
  lemma ComponentPresent(nodes: map<Path, Account>, cs: seq<Components>, k: nat)
    requires Shaped(cs) && k < |cs|
    ensures cs[k].regular in EnsuredAll(nodes, cs)
  {
    var r := cs[k].regular;
    assert r[..|r|] == r;
    assert OnPath(r, r);
    assert Passes(cs, r);
    EnsuredAllKeys(nodes, cs, r);
  }

  /** The selected postings are postings of the transactions. */
  lemma {:induction false} SelectedIn(ts: seq<Transaction>, asAt: Option<string>, p: Posting)
    requires p in Selected(ts, asAt)
    ensures p in PostingsOf(ts)
    decreases |ts|
  {
    var n := |ts| - 1;
    if p in Selected(ts[..n], asAt) {
      SelectedIn(ts[..n], asAt, p);
    }
  }

  /** Account `q` lies on the path of some posting's account. */
  ghost predicate Named(ps: seq<Posting>, q: Path) {
    exists i :: 0 <= i < |ps| && OnPath(q, Regular(ps[i].account))
  }

  lemma NamedPasses(ps: seq<Posting>, q: Path)
    ensures Named(ps, q) <==> Passes(AccountComponents(ps), q)
  {
    var cs := AccountComponents(ps);
    if Named(ps, q) {
      var i :| 0 <= i < |ps| && OnPath(q, Regular(ps[i].account));
      assert OnPath(q, cs[i].regular);
    }
    if Passes(cs, q) {
      var i :| 0 <= i < |cs| && OnPath(q, cs[i].regular);
      assert OnPath(q, Regular(ps[i].account));
    }
  }

  lemma BooksEndsAt(ps: seq<Posting>, q: Path)
    ensures Books(ps, q) <==> EndsAt(AccountComponents(ps), q)
  {
    var cs := AccountComponents(ps);
    if Books(ps, q) {
      var i :| 0 <= i < |ps| && Regular(ps[i].account) == q;
      assert cs[i].regular == q;
    }
    if EndsAt(cs, q) {
      var i :| 0 <= i < |cs| && cs[i].regular == q;
      assert Regular(ps[i].account) == q;
    }
  }

  lemma SelectedBooks(ts: seq<Transaction>, asAt: Option<string>, q: Path)
    requires Books(Selected(ts, asAt), q)
    ensures Books(PostingsOf(ts), q)
  {
    var sel, ps := Selected(ts, asAt), PostingsOf(ts);
    var i :| 0 <= i < |sel| && Regular(sel[i].account) == q;
    SelectedIn(ts, asAt, sel[i]);
    var k :| 0 <= k < |ps| && ps[k] == sel[i];
  }

  /** calculate_balances fails exactly when a posting it books has no amount: every
      account a posting names is already in the tree it built first. */
  lemma CalculatedOk(ts: seq<Transaction>, asAt: Option<string>)
    ensures Calculated(ts, asAt).Ok? <==> forall p :: p in Selected(ts, asAt) ==> p.amount.Amount?
  {
    var ps := PostingsOf(ts);
    var cs := AccountComponents(ps);
    var start := EnsuredAll(Root(), cs);
    var sel := Selected(ts, asAt);
    assert PrefixClosed(Root());
    EnsuredAllClosed(Root(), cs);
    BookedAllOk(start, sel);
    forall i | 0 <= i < |sel|
      ensures Regular(sel[i].account) in start
    {
      SelectedIn(ts, asAt, sel[i]);
      var k :| 0 <= k < |ps| && ps[k] == sel[i];
      ComponentPresent(Root(), cs, k);
    }
  }

  /** After calculate_balances, each account holds, for each unit, the sum of the quantities
      of the booked postings in that unit to it or to any of its sub-accounts, and no other
      unit. */
  lemma CalculatedBalances(ts: seq<Transaction>, asAt: Option<string>, q: Path, units: string)
    requires Calculated(ts, asAt).Ok? && q in Calculated(ts, asAt).value
    ensures units in Calculated(ts, asAt).value[q].balances <==> HasUnits(Under(Selected(ts, asAt), q), units)
    ensures units in Calculated(ts, asAt).value[q].balances ==>
              Calculated(ts, asAt).value[q].balances[units] == UnitQuantity(Under(Selected(ts, asAt), q), units)
  {
    var cs := AccountComponents(PostingsOf(ts));
    var start := EnsuredAll(Root(), cs);
    var sel := Selected(ts, asAt);
    BookedAllKeys(start, sel);
    BookedAllBalances(start, sel, q);
    if q in Root() {
      EnsuredAllKept(Root(), cs, q);
    } else {
      EnsuredAllNew(Root(), cs, q);
    }
    CreditedSums(map[], Under(sel, q), units);
  }

  /** The accounts calculate_balances leaves are the root and every account on the path of
      a posting of any transaction, booked or not; an account has postings of its own
      exactly when some posting names it. */
  lemma CalculatedAccounts(ts: seq<Transaction>, asAt: Option<string>, q: Path)
    requires Calculated(ts, asAt).Ok?
    ensures q in Calculated(ts, asAt).value <==> q == [] || Named(PostingsOf(ts), q)
    ensures q in Calculated(ts, asAt).value ==>
              (Calculated(ts, asAt).value[q].hasOwnPostings <==> Books(PostingsOf(ts), q))
  {
    var ps := PostingsOf(ts);
    var cs := AccountComponents(ps);
    var start := EnsuredAll(Root(), cs);
    var sel := Selected(ts, asAt);
    BookedAllKeys(start, sel);
    EnsuredAllKeys(Root(), cs, q);
    NamedPasses(ps, q);
    if q in start {
      EnsuredAllFlags(Root(), cs, q);
      BookedAllFlags(start, sel, q);
      BooksEndsAt(ps, q);
      if Books(sel, q) {
        SelectedBooks(ts, asAt, q);
      }
    }
  }

  lemma AccountComponentsPrefix(ps: seq<Posting>, i: nat)
    requires i <= |ps|
    ensures AccountComponents(ps)[..i] == AccountComponents(ps[..i])
  {
  }

  lemma ComponentsAt(ps: seq<Posting>, i: nat)
    requires i < |ps|
    ensures AccountComponents(ps)[i].regular == Regular(ps[i].account)
    ensures AccountComponents(ps)[i].original == Split(ps[i].account, ':')
  {
  }

  /** After calculate_balances, the root keeps the empty name and every other account the
      spelling of its piece in the first posting whose account passes through it. */
  lemma CalculatedNames(ts: seq<Transaction>, asAt: Option<string>, q: Path)
    requires Calculated(ts, asAt).Ok? && q in Calculated(ts, asAt).value
    ensures q == [] ==> Calculated(ts, asAt).value[q].name == ""
    ensures q != [] ==>
              exists i :: 0 <= i < |PostingsOf(ts)| && OnPath(q, Regular(PostingsOf(ts)[i].account))
                && !Named(PostingsOf(ts)[..i], q)
                && |q| <= |Split(PostingsOf(ts)[i].account, ':')|
                && Calculated(ts, asAt).value[q].name == Split(PostingsOf(ts)[i].account, ':')[|q| - 1]
  {
    var ps := PostingsOf(ts);
    var cs := AccountComponents(ps);
    var start := EnsuredAll(Root(), cs);
    var sel := Selected(ts, asAt);
    BookedAllKeys(start, sel);
    BookedAllBalances(start, sel, q);
    if q in Root() {
      EnsuredAllKept(Root(), cs, q);
    } else {
      EnsuredAllNew(Root(), cs, q);
      var i :| 0 <= i < |cs| && OnPath(q, cs[i].regular) && !Passes(cs[..i], q)
        && 1 <= |q| <= |cs[i].original| && start[q].name == cs[i].original[|q| - 1];
      AccountComponentsPrefix(ps, i);
      NamedPasses(ps[..i], q);
      ComponentsAt(ps, i);
      var value := BookedAll(start, sel).value;
      assert 0 <= i < |ps| && OnPath(q, Regular(ps[i].account)) && !Named(ps[..i], q)
        && |q| <= |Split(ps[i].account, ':')| && value[q].name == Split(ps[i].account, ':')[|q| - 1];
    }
  }
}
