/** The account tree: every account the journal names, with each of its ancestors, and the
    balances booked to it. The ledger nests dictionaries keyed by canonical component; here
    the nodes are held flat, keyed by their canonical path, so the children of the node at
    `p` are the nodes at `p + [c]`. The path `[]` is the root made by `_make_account('')`,
    whose children are the top-level accounts. A node is identified by its path, which is
    what stands for the node reference `find_account` returns. */
module Tree {
  import opened Text
  import opened Results
  import opened Accounts
  import opened Amounts
  import opened Journal

  type Path = seq<string>

  /** One node: the spelling its component was first seen with, its balance in each unit,
      and whether some account string ends at it. */
  datatype Account = Account(name: string, balances: Balances, hasOwnPostings: bool)

  /** _make_account. */
  function MakeAccount(name: string): Account {
    Account(name, map[], false)
  }

  /** The paths of the nodes from the top-level account down to `path`. */
  function Prefixes(path: Path): set<Path> {
    UpTo(path, |path|)
  }

  /** The paths of the first `j` nodes from the top-level account down to `path`. */
  function UpTo(path: Path, j: nat): set<Path>
    requires j <= |path|
  {
    set k | 1 <= k <= j :: path[..k]
  }

  lemma UpToStep(path: Path, j: nat)
    requires j < |path|
    ensures UpTo(path, j + 1) == UpTo(path, j) + {path[..j + 1]}
    ensures path[..j + 1] !in UpTo(path, j)
  {
    forall x | x in UpTo(path, j) ensures |x| <= j {
    }
  }

  lemma UpToMember(path: Path, j: nat, p: Path)
    requires j <= |path| && p in UpTo(path, j)
    ensures 1 <= |p| <= j && p == path[..|p|]
  {
  }

  /** `p` is the path of one of the nodes from the top-level account down to `r`. */
  predicate OnPath(p: Path, r: Path) {
    1 <= |p| <= |r| && p == r[..|p|]
  }

  lemma PrefixesOnPath(p: Path, r: Path)
    ensures p in Prefixes(r) <==> OnPath(p, r)
  {
    if OnPath(p, r) {
      assert p == r[..|p|];
    }
  }

  lemma PrefixesMissing(path: Path, keys: set<Path>, k: nat)
    requires 1 <= k <= |path| && path[..k] !in keys
    ensures !(Prefixes(path) <= keys)
  {
    assert path[..k] in Prefixes(path);
  }

  lemma PrefixesPresent(path: Path, keys: set<Path>)
    requires forall k :: 1 <= k <= |path| ==> path[..k] in keys
    ensures Prefixes(path) <= keys
  {
  }

  lemma PrefixesOfPrefix(path: Path, n: nat)
    requires n <= |path|
    ensures Prefixes(path[..n]) <= Prefixes(path)
  {
    forall x | x in Prefixes(path[..n]) ensures x in Prefixes(path) {
      var j :| 1 <= j <= n && x == path[..n][..j];
      assert x == path[..j];
    }
  }

  /** The root is present and every other node's parent is a node. */
  ghost predicate PrefixClosed(nodes: map<Path, Account>) {
    && [] in nodes
    && forall p :: p in nodes && p != [] ==> p[..|p| - 1] in nodes
  }

  // ---------------------------------------------------------------- _ensure_sub_accounts

  /** The nodes after _ensure_sub_accounts of an account with canonical path `regular`
      and original components `original`: the nodes on the path that were missing are
      created with the spelling of their component, and the leaf is marked as having its
      own postings. */
  function Ensured(nodes: map<Path, Account>, regular: Path, original: seq<string>): map<Path, Account> {
    map p | p in nodes.Keys + Prefixes(regular) ::
      var a := if p in nodes then nodes[p]
               else MakeAccount(if 1 <= |p| <= |original| then original[|p| - 1] else "");
      if p == regular then a.(hasOwnPostings := true) else a
  }

  /** What _ensure_sub_accounts does to the tree: the nodes on the account's path are
      there afterwards and no other node appears; the nodes that were there keep their
      spelling, balances and children, and only the leaf's flag can change; a new node
      carries the original spelling of its own component and no balance. */
  lemma EnsuredMeaning(nodes: map<Path, Account>, regular: Path, original: seq<string>)
    requires 1 <= |regular| == |original|
    ensures Ensured(nodes, regular, original).Keys == nodes.Keys + Prefixes(regular)
    ensures forall p :: p in nodes && p != regular ==> Ensured(nodes, regular, original)[p] == nodes[p]
    ensures regular in nodes ==> Ensured(nodes, regular, original)[regular] == nodes[regular].(hasOwnPostings := true)
    ensures forall k :: 1 <= k <= |regular| && regular[..k] !in nodes ==>
              Ensured(nodes, regular, original)[regular[..k]]
              == Account(original[k - 1], map[], k == |regular|)
    ensures regular in Ensured(nodes, regular, original) && Ensured(nodes, regular, original)[regular].hasOwnPostings
    ensures PrefixClosed(nodes) ==> PrefixClosed(Ensured(nodes, regular, original))
  {
    EnsuredNew(nodes, regular, original);
    EnsuredLeaf(nodes, regular, original);
    if PrefixClosed(nodes) {
      EnsuredClosed(nodes, regular, original);
    }
  }

  lemma EnsuredNew(nodes: map<Path, Account>, regular: Path, original: seq<string>)
    requires |regular| == |original|
    ensures forall k :: 1 <= k <= |regular| && regular[..k] !in nodes ==>
              Ensured(nodes, regular, original)[regular[..k]]
              == Account(original[k - 1], map[], k == |regular|)
  {
    var m := Ensured(nodes, regular, original);
    forall k | 1 <= k <= |regular| && regular[..k] !in nodes
      ensures m[regular[..k]] == Account(original[k - 1], map[], k == |regular|)
    {
      assert regular[..k] in Prefixes(regular);
      assert |regular[..k]| == k;
      assert regular[..k] == regular <==> k == |regular|;
    }
  }

  lemma EnsuredLeaf(nodes: map<Path, Account>, regular: Path, original: seq<string>)
    requires 1 <= |regular|
    ensures regular in Ensured(nodes, regular, original)
    ensures Ensured(nodes, regular, original)[regular].hasOwnPostings
  {
    assert regular[..|regular|] == regular;
    assert regular in Prefixes(regular);
  }

  lemma EnsuredClosed(nodes: map<Path, Account>, regular: Path, original: seq<string>)
    requires PrefixClosed(nodes)
    ensures PrefixClosed(Ensured(nodes, regular, original))
  {
    var m := Ensured(nodes, regular, original);
    forall p | p in m && p != []
      ensures p[..|p| - 1] in m
    {
      if p !in nodes {
        var k :| 1 <= k <= |regular| && p == regular[..k];
        if k > 1 {
          assert p[..|p| - 1] == regular[..k - 1];
          assert regular[..k - 1] in Prefixes(regular);
        }
      }
    }
  }

  /** _ensure_sub_account on the node map: the node at `child` is made with spelling
      `name` if it is missing. */
  function AddChild(nodes: map<Path, Account>, child: Path, name: string): (r: map<Path, Account>)
    ensures child in r && r.Keys == nodes.Keys + {child}
  {
    if child in nodes then nodes else nodes[child := MakeAccount(name)]
  }

  /** `has_own_postings = True` on the node at `p`. */
  function Mark(nodes: map<Path, Account>, p: Path): map<Path, Account>
    requires p in nodes
  {
    nodes[p := nodes[p].(hasOwnPostings := true)]
  }

  /** The nodes after the walk of _ensure_sub_accounts has handled the first `j`
      components. */
  function Partial(nodes: map<Path, Account>, regular: Path, original: seq<string>, j: nat): map<Path, Account>
    requires j <= |regular|
  {
    map p | p in nodes.Keys + UpTo(regular, j) ::
      var a := if p in nodes then nodes[p]
               else MakeAccount(if 1 <= |p| <= |original| then original[|p| - 1] else "");
      if j == |regular| && p == regular then a.(hasOwnPostings := true) else a
  }

  /** Two maps with the same keys and the same value at each key are equal. */
  lemma MapsEqual<K, V>(m1: map<K, V>, m2: map<K, V>)
    requires m1.Keys == m2.Keys && forall k :: k in m1 ==> m1[k] == m2[k]
    ensures m1 == m2
  {
  }

  /** Nothing has been done before the walk starts. */
  lemma PartialStart(nodes: map<Path, Account>, regular: Path, original: seq<string>)
    requires 1 <= |regular|
    ensures Partial(nodes, regular, original, 0) == nodes
  {
    var m := Partial(nodes, regular, original, 0);
    assert UpTo(regular, 0) == {};
    assert m.Keys == nodes.Keys;
    forall p | p in m ensures m[p] == nodes[p] {
      assert p in nodes;
    }
    MapsEqual(m, nodes);
  }

  /** The walk's step on the nodes: the node of component `j` is made if it is missing,
      and marked if it is the last. */
  function WalkStep(nodes: map<Path, Account>, regular: Path, original: seq<string>, j: nat): map<Path, Account>
    requires j < |regular| == |original|
  {
    var m := AddChild(nodes, regular[..j + 1], original[j]);
    if j + 1 == |regular| then Mark(m, regular[..j + 1]) else m
  }

  /** One more component handled is one more step of the walk. */
  lemma PartialStep(nodes: map<Path, Account>, regular: Path, original: seq<string>, j: nat)
    requires j < |regular| == |original|
    ensures Partial(nodes, regular, original, j + 1) == WalkStep(Partial(nodes, regular, original, j), regular, original, j)
  {
    var m1 := Partial(nodes, regular, original, j + 1);
    var m2 := WalkStep(Partial(nodes, regular, original, j), regular, original, j);
    UpToStep(regular, j);
    assert m1.Keys == m2.Keys;
    forall p | p in m1 ensures m1[p] == m2[p] {
      PartialStepAt(nodes, regular, original, j, p);
    }
    MapsEqual(m1, m2);
  }

  lemma PartialStepAt(nodes: map<Path, Account>, regular: Path, original: seq<string>, j: nat, p: Path)
    requires j < |regular| == |original|
    requires p in Partial(nodes, regular, original, j + 1)
    ensures p in WalkStep(Partial(nodes, regular, original, j), regular, original, j)
    ensures Partial(nodes, regular, original, j + 1)[p] == WalkStep(Partial(nodes, regular, original, j), regular, original, j)[p]
  {
    var c := regular[..j + 1];
    UpToStep(regular, j);
    if p == c {
      assert |p| == j + 1;
      assert j + 1 == |regular| ==> p == regular;
    } else if p !in nodes {
      UpToMember(regular, j, p);
    }
  }

  /** After the last component the walk has done what _ensure_sub_accounts does. */
  lemma PartialDone(nodes: map<Path, Account>, regular: Path, original: seq<string>)
    ensures Partial(nodes, regular, original, |regular|) == Ensured(nodes, regular, original)
  {
    assert (set k | 1 <= k <= |regular| :: regular[..k]) == Prefixes(regular);
  }

  // ---------------------------------------------------------------- find_account, account_and_parents

  /** find_account: the node named by the account string, looked up one canonical component
      at a time from the top; it fails if a node on the way is missing. */
  function FindAccount(nodes: map<Path, Account>, s: string): Result<Path> {
    if Prefixes(Regular(s)) <= nodes.Keys then Ok(Regular(s)) else Err(AccountNotFound(s))
  }

  /** In a tree where every node's parent is present, an account is found exactly when its
      own node is there, and what is found is the node of its canonical path. */
  lemma FindAccountCases(nodes: map<Path, Account>, s: string)
    requires PrefixClosed(nodes)
    ensures FindAccount(nodes, s).Ok? <==> Regular(s) in nodes
    ensures FindAccount(nodes, s).Ok? ==> FindAccount(nodes, s).value == Regular(s)
    ensures FindAccount(nodes, s).Err? ==> FindAccount(nodes, s).error == AccountNotFound(s)
  {
    var r := Regular(s);
    assert r[..|r|] == r;
    if r in nodes {
      ParentsPresent(nodes, r, |r|);
    } else {
      assert r in Prefixes(r);
    }
  }

  lemma {:induction false} ParentsPresent(nodes: map<Path, Account>, r: Path, n: nat)
    requires PrefixClosed(nodes) && n <= |r| && r[..n] in nodes
    ensures forall k :: 1 <= k <= n ==> r[..k] in nodes
    decreases n
  {
    if n > 1 {
      assert r[..n][..n - 1] == r[..n - 1];
      ParentsPresent(nodes, r, n - 1);
    }
  }

  /** find_account on each name in turn, failing with the first that is not found. */
  function FindAll(nodes: map<Path, Account>, names: seq<string>): Result<seq<Path>>
    decreases |names|
  {
    if names == [] then Ok([])
    else
      var p :- FindAccount(nodes, names[0]);
      var rest :- FindAll(nodes, names[1..]);
      Ok([p] + rest)
  }

  lemma {:induction false} FindAllFound(nodes: map<Path, Account>, names: seq<string>, found: seq<Path>)
    requires |found| == |names|
    requires forall k :: 0 <= k < |names| ==> FindAccount(nodes, names[k]) == Ok(found[k])
    ensures FindAll(nodes, names) == Ok(found)
    decreases |names|
  {
    if names != [] {
      FindAllFound(nodes, names[1..], found[1..]);
      assert found == [found[0]] + found[1..];
    }
  }

  lemma {:induction false} FindAllMissing(nodes: map<Path, Account>, names: seq<string>, i: nat)
    requires i < |names| && FindAccount(nodes, names[i]).Err?
    requires forall k :: 0 <= k < i ==> FindAccount(nodes, names[k]).Ok?
    ensures FindAll(nodes, names) == Err(FindAccount(nodes, names[i]).error)
    decreases i
  {
    if i > 0 {
      FindAllMissing(nodes, names[1..], i - 1);
    }
  }

  /** account_and_parents: the nodes of the account and of each of its ancestors. */
  function AccountAndParentsOf(nodes: map<Path, Account>, s: string): Result<seq<Path>> {
    FindAll(nodes, AncestorNames(s))
  }

  /** Once the account is found, so is every ancestor, and the nodes are those of the
      account's path, shortest first. */
  lemma AccountAndParentsPaths(nodes: map<Path, Account>, s: string)
    requires FindAccount(nodes, s).Ok?
    ensures AccountAndParentsOf(nodes, s).Ok?
    ensures |AccountAndParentsOf(nodes, s).value| == |Regular(s)|
    ensures forall k :: 0 <= k < |Regular(s)| ==> AccountAndParentsOf(nodes, s).value[k] == Regular(s)[..k + 1]
  {
    var r := Regular(s);
    var names := AncestorNames(s);
    var found := seq(|r|, k requires 0 <= k < |r| => r[..k + 1]);
    forall k | 0 <= k < |names|
      ensures FindAccount(nodes, names[k]) == Ok(found[k])
    {
      AncestorFound(nodes, s, k);
    }
    FindAllFound(nodes, names, found);
  }

  lemma AncestorFound(nodes: map<Path, Account>, s: string, k: nat)
    requires Prefixes(Regular(s)) <= nodes.Keys && k < |Regular(s)|
    ensures FindAccount(nodes, AncestorNames(s)[k]) == Ok(Regular(s)[..k + 1])
  {
    PrefixesOfPrefix(Regular(s), k + 1);
  }

  // ---------------------------------------------------------------- book_posting

  /** The nodes after `quantity` of `units` is added to the balance of each node whose path
      is in `done`. */
  function Credit(nodes: map<Path, Account>, done: set<Path>, units: string, quantity: int): map<Path, Account> {
    map q | q in nodes ::
      if q in done then nodes[q].(balances := Add(nodes[q].balances, units, quantity)) else nodes[q]
  }

  /** The nodes after the node at `leaf` is marked as having its own postings and the
      amount is added to it and each of its ancestors below the root. */
  function Booking(nodes: map<Path, Account>, leaf: Path, units: string, quantity: int): map<Path, Account>
    requires leaf in nodes
  {
    Credit(nodes[leaf := nodes[leaf].(hasOwnPostings := true)], Prefixes(leaf), units, quantity)
  }

  /** book_posting: the nil amount has no units; an account that is not in the tree is not
      found; otherwise the account's node is marked and the amount is added to it and to
      every ancestor below the root, in the posting's own units. */
  function Booked(nodes: map<Path, Account>, p: Posting): Result<map<Path, Account>> {
    if p.amount.Nil? then Err(NoUnits)
    else
      var leaf :- FindAccount(nodes, p.account);
      assert leaf[..|leaf|] == leaf && leaf in Prefixes(leaf);
      Ok(Booking(nodes, leaf, p.amount.units, p.amount.quantity))
  }

  /** Booking keeps the nodes and their spelling; it adds the quantity to the balance in
      `units` of exactly the nodes on the path to `leaf`, leaves every other unit and every
      other node's balances alone, and marks only the node at `leaf`. */
  lemma BookingMeaning(nodes: map<Path, Account>, leaf: Path, units: string, quantity: int)
    requires 1 <= |leaf| && Prefixes(leaf) <= nodes.Keys
    ensures leaf in nodes
    ensures Booking(nodes, leaf, units, quantity).Keys == nodes.Keys
    ensures forall q :: q in nodes ==> Booking(nodes, leaf, units, quantity)[q].name == nodes[q].name
    ensures forall q :: q in nodes ==>
              Booking(nodes, leaf, units, quantity)[q].hasOwnPostings == (nodes[q].hasOwnPostings || q == leaf)
    ensures forall q, u :: q in nodes && u != units ==>
              (u in Booking(nodes, leaf, units, quantity)[q].balances <==> u in nodes[q].balances)
              && (u in nodes[q].balances ==> Booking(nodes, leaf, units, quantity)[q].balances[u] == nodes[q].balances[u])
    ensures forall q :: q in Prefixes(leaf) ==>
              Booking(nodes, leaf, units, quantity)[q].balances[units]
              == (if units in nodes[q].balances then nodes[q].balances[units] else 0) + quantity
    ensures forall q :: q in nodes && q !in Prefixes(leaf) ==>
              Booking(nodes, leaf, units, quantity)[q].balances == nodes[q].balances
  {
    assert leaf[..|leaf|] == leaf && leaf in Prefixes(leaf);
  }

  /** A posting is booked exactly when it has an amount and its account is in the tree, and
      then it is booked at the node of the account's canonical path. */
  lemma BookedCases(nodes: map<Path, Account>, p: Posting)
    ensures Booked(nodes, p).Ok? <==> p.amount.Amount? && FindAccount(nodes, p.account).Ok?
    ensures p.amount.Nil? ==> Booked(nodes, p) == Err(NoUnits)
    ensures p.amount.Amount? && FindAccount(nodes, p.account).Err? ==>
              Booked(nodes, p) == Err(AccountNotFound(p.account))
    ensures Booked(nodes, p).Ok? ==>
              Regular(p.account) in nodes
              && Booked(nodes, p).value == Booking(nodes, Regular(p.account), p.amount.units, p.amount.quantity)
  {
    if p.amount.Amount? && FindAccount(nodes, p.account).Ok? {
      var r := Regular(p.account);
      assert r[..|r|] == r && r in Prefixes(r);
    }
  }

  /** Distinct lengths make the nodes of a path distinct. */
  lemma PathNodesDistinct(leaf: Path, paths: seq<Path>)
    requires |paths| == |leaf|
    requires forall k :: 0 <= k < |leaf| ==> paths[k] == leaf[..k + 1]
    ensures forall i, j :: 0 <= i < j < |paths| ==> paths[i] != paths[j]
    ensures (set k | 0 <= k < |paths| :: paths[k]) == Prefixes(leaf)
  {
    forall i, j | 0 <= i < j < |paths| ensures paths[i] != paths[j] {
      assert |paths[i]| == i + 1 && |paths[j]| == j + 1;
    }
    forall x | x in Prefixes(leaf) ensures x in set k | 0 <= k < |paths| :: paths[k] {
      var k :| 1 <= k <= |leaf| && x == leaf[..k];
      assert x == paths[k - 1];
    }
  }

  /** Adding to one more node. */
  lemma CreditStep(start: map<Path, Account>, paths: seq<Path>, units: string, quantity: int, i: nat)
    requires i < |paths|
    requires forall k :: 0 <= k < i ==> paths[k] != paths[i]
    requires paths[i] in start
    ensures var b := Credit(start, set k | 0 <= k < i :: paths[k], units, quantity);
            Credit(start, set k | 0 <= k < i + 1 :: paths[k], units, quantity)
            == b[paths[i] := b[paths[i]].(balances := Add(b[paths[i]].balances, units, quantity))]
  {
    var d0 := set k | 0 <= k < i :: paths[k];
    var d1 := set k | 0 <= k < i + 1 :: paths[k];
    assert d1 == d0 + {paths[i]};
    var b := Credit(start, d0, units, quantity);
    var m1 := Credit(start, d1, units, quantity);
    var m2 := b[paths[i] := b[paths[i]].(balances := Add(b[paths[i]].balances, units, quantity))];
    assert m1.Keys == m2.Keys;
    forall q | q in m1 ensures m1[q] == m2[q] {
    }
  }

  // ---------------------------------------------------------------- the tree object

  /** The mutable account tree of the ledger. */
  class AccountTree {
    var nodes: map<Path, Account>

    ghost predicate Valid()
      reads this
    {
      PrefixClosed(nodes)
    }

    /** `root = _make_account('')`: the root alone. */
    constructor ()
      ensures nodes == map[[] := MakeAccount("")]
      ensures Valid()
    {
      nodes := map[[] := MakeAccount("")];
    }

    /** _ensure_sub_account: the child of `parent` called `regular`, created with the name
        `original` if it is missing. */
    method EnsureSubAccount(parent: Path, regular: string, original: string) returns (child: Path)
      modifies this
      ensures child == parent + [regular]
      ensures nodes == AddChild(old(nodes), child, original)
    {
      child := parent + [regular];
      if child !in nodes {
        nodes := nodes[child := MakeAccount(original)];
      }
    }

    /** _ensure_sub_accounts: splits the account string into its components and walks
        them. */
    method EnsureSubAccounts(s: string)
      modifies this
      ensures nodes == Ensured(old(nodes), Regular(s), Split(s, ':'))
      ensures old(Valid()) ==> Valid()
    {
      var components := AccountStringComponents(s);
      EnsureComponents(components.regular, components.original);
    }

    /** The loop of _ensure_sub_accounts: walks the components from the top, creating the
        missing nodes, and marks the last one. */
    method EnsureComponents(regular: Path, original: seq<string>)
      requires 1 <= |regular| == |original|
      modifies this
      ensures nodes == Ensured(old(nodes), regular, original)
      ensures old(Valid()) ==> Valid()
    {
      var regular, original := regular, original;
      ghost var full := regular;
      ghost var names := original;
      var account: Path := [];
      ghost var j := 0;
      PartialStart(nodes, full, names);
      while |original| > 0
        invariant 0 <= j <= |full| == |names|
        invariant regular == full[j..] && original == names[j..] && account == full[..j]
        invariant nodes == Partial(old(nodes), full, names, j)
        decreases |original|
      {
        SliceStep(full, j);
        SliceStep(names, j);
        PartialStep(old(nodes), full, names, j);
        ghost var before := nodes;
        account := EnsureSubAccount(account, regular[0], original[0]);
        if |original| == 1 {
          nodes := nodes[account := nodes[account].(hasOwnPostings := true)];
        }
        assert nodes == WalkStep(before, full, names, j);
        original := original[1..];
        regular := regular[1..];
        j := j + 1;
      }
      PartialDone(old(nodes), full, names);
      EnsuredMeaning(old(nodes), full, names);
    }

    /** find_account: the canonical components of the account, then the walk. */
    method Find(s: string) returns (r: Result<Path>)
      ensures r == FindAccount(nodes, s)
    {
      var components := Regular(s);
      var found := HasPath(components);
      if !found {
        return Err(AccountNotFound(s));
      }
      r := Ok(components);
    }

    /** The walk of find_account: each component is looked up among the children of the
        node before it, from the top-level account down. */
    method HasPath(components: Path) returns (found: bool)
      requires 1 <= |components|
      ensures found <==> Prefixes(components) <= nodes.Keys
    {
      ghost var full := components;
      var components := components;
      ghost var i := 0;
      var path := [components[0]];
      assert path == full[..1];
      if path !in nodes {
        PrefixesMissing(full, nodes.Keys, 1);
        return false;
      }
      while |components| > 1
        invariant i < |full| && components == full[i..] && path == full[..i + 1]
        invariant forall k :: 1 <= k <= i + 1 ==> full[..k] in nodes
      {
        components := components[1..];
        i := i + 1;
        path := path + [components[0]];
        assert path == full[..i + 1];
        if path !in nodes {
          PrefixesMissing(full, nodes.Keys, i + 1);
          return false;
        }
      }
      assert path == full;
      PrefixesPresent(full, nodes.Keys);
      found := true;
    }

    /** account_and_parents: the canonical names of the account and its ancestors, then
        find_account on each. */
    method AccountAndParents(s: string) returns (r: Result<seq<Path>>)
      ensures r == AccountAndParentsOf(nodes, s)
    {
      var names := AccountStringAndParents(s);
      var result: seq<Path> := [];
      var i := 0;
      while i < |names|
        invariant 0 <= i <= |names| && |result| == i
        invariant forall k :: 0 <= k < i ==> FindAccount(nodes, names[k]) == Ok(result[k])
      {
        var found := Find(names[i]);
        if found.Err? {
          FindAllMissing(nodes, names, i);
          return Err(found.error);
        }
        result := result + [found.value];
        i := i + 1;
      }
      FindAllFound(nodes, names, result);
      r := Ok(result);
    }

    /** book_posting: the nil amount fails before anything changes, as `amount['units']`
        does; so does an account not in the tree. */
    method BookPosting(p: Posting) returns (r: Outcome)
      modifies this
      ensures r.Pass? <==> Booked(old(nodes), p).Ok?
      ensures r.Pass? ==> nodes == Booked(old(nodes), p).value
      ensures r.Fail? ==> nodes == old(nodes) && r.error == Booked(old(nodes), p).error
    {
      if p.amount.Nil? {
        return Fail(NoUnits);
      }
      var leaf := Find(p.account);
      if leaf.Err? {
        BookedCases(nodes, p);
        return Fail(leaf.error);
      }
      var l := leaf.value;
      assert l[..|l|] == l && l in Prefixes(l);
      nodes := nodes[l := nodes[l].(hasOwnPostings := true)];
      var parents := AccountAndParents(p.account);
      AccountAndParentsPaths(nodes, p.account);
      PathNodesDistinct(l, parents.value);
      AddToEach(parents.value, p.amount.units, p.amount.quantity);
      BookedCases(old(nodes), p);
      r := Pass;
    }

    /** The loop of book_posting: adds the quantity to the balance in `units` of each node
        in `paths`, starting a balance that is not there yet. */
    method AddToEach(paths: seq<Path>, units: string, quantity: int)
      requires forall k :: 0 <= k < |paths| ==> paths[k] in nodes
      requires forall i, j :: 0 <= i < j < |paths| ==> paths[i] != paths[j]
      modifies this
      ensures nodes == Credit(old(nodes), set k | 0 <= k < |paths| :: paths[k], units, quantity)
    {
      var i := 0;
      while i < |paths|
        invariant 0 <= i <= |paths|
        invariant nodes == Credit(old(nodes), set k | 0 <= k < i :: paths[k], units, quantity)
      {
        var q := paths[i];
        var balances := nodes[q].balances;
        if units in balances {
          balances := balances[units := balances[units] + quantity];
        } else {
          balances := balances[units := quantity];
        }
        CreditStep(old(nodes), paths, units, quantity, i);
        nodes := nodes[q := nodes[q].(balances := balances)];
        i := i + 1;
      }
    }
  }
}
