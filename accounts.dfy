/** Account naming: an account string is a `:`-separated path such as `Expenses:Petrol`.
    Its canonical form upper-cases every component and regularises the root, so that
    `expense:petrol` and `Expenses:PETROL` name the same account. */
module Accounts {
  import opened Text
  import opened Results

  /** The five roots a valid account string starts with, in canonical spelling. */
  const RootNames: set<string> := {"ASSETS", "LIABILITIES", "INCOME", "EXPENSES", "EQUITY"}

  /** Every upper-cased first component that regularises to one of the five roots. */
  const AcceptedRoots: set<string> :=
    {"ASSET", "ASSETS", "LIABILITY", "LIABILITIES", "INCOME", "REVENUE", "REVENUES",
     "EXPENSE", "EXPENSES", "EQUITY"}

  /** The singular-to-plural and revenue-to-income rewriting of an upper-cased root. */
  function Regularise(root: string): string {
    if root == "EXPENSE" then "EXPENSES"
    else if root == "ASSET" then "ASSETS"
    else if root == "LIABILITY" then "LIABILITIES"
    else if root == "REVENUE" then "INCOME"
    else if root == "REVENUES" then "INCOME"
    else root
  }

  /** root_account_name: the regularised, upper-cased first component. */
  function RootAccountName(s: string): (r: string)
    ensures Upper(r) == r
    ensures ':' !in r
  {
    var root := Upper(Split(s, ':')[0]);
    UpperIdempotent(Split(s, ':')[0]);
    Regularise(root)
  }

  /** Which spellings of the first component give which root. */
  lemma RootAccountNameCases(s: string)
    ensures Upper(Split(s, ':')[0]) in {"ASSET", "ASSETS"} ==> RootAccountName(s) == "ASSETS"
    ensures Upper(Split(s, ':')[0]) in {"LIABILITY", "LIABILITIES"} ==> RootAccountName(s) == "LIABILITIES"
    ensures Upper(Split(s, ':')[0]) in {"EXPENSE", "EXPENSES"} ==> RootAccountName(s) == "EXPENSES"
    ensures Upper(Split(s, ':')[0]) in {"REVENUE", "REVENUES", "INCOME"} ==> RootAccountName(s) == "INCOME"
    ensures Upper(Split(s, ':')[0]) !in AcceptedRoots ==> RootAccountName(s) == Upper(Split(s, ':')[0])
  {
  }

  /** account_sign_dict: +1 for the roots that debits increase, -1 for the others. */
  const AccountSigns: map<string, int> :=
    map["ASSETS" := 1, "LIABILITIES" := -1, "INCOME" := -1, "EXPENSES" := 1, "EQUITY" := -1]

  /** sign_account: the sign of the account's root; a root outside the table fails. */
  function SignAccount(s: string): (r: Result<int>)
    ensures r.Ok? ==> r.value == 1 || r.value == -1
    ensures r.Err? ==> r.error == UnknownAccountRoot(s)
  {
    var root := RootAccountName(s);
    if root in AccountSigns then Ok(AccountSigns[root]) else Err(UnknownAccountRoot(s))
  }

  /** Which roots have which sign, and that no other root has one. */
  lemma SignAccountCases(s: string)
    ensures SignAccount(s).Ok? <==> RootAccountName(s) in RootNames
    ensures SignAccount(s) == Ok(1) <==> RootAccountName(s) in {"ASSETS", "EXPENSES"}
    ensures SignAccount(s) == Ok(-1) <==> RootAccountName(s) in {"LIABILITIES", "INCOME", "EQUITY"}
  {
  }

  /** is_valid_account_string: the first component names one of the five roots, in any
      case and in singular or plural. */
  predicate IsValidAccountString(s: string) {
    SignAccount(s).Ok?
  }

  lemma ValidAccountRoots(s: string)
    ensures IsValidAccountString(s) <==> Upper(Split(s, ':')[0]) in AcceptedRoots
  {
    SignAccountCases(s);
    RootAccountNameCases(s);
  }

  datatype Components = Components(original: seq<string>, regular: seq<string>)

  /** Every piece upper-cased. */
  function UpperAll(parts: seq<string>): (r: seq<string>)
    ensures |r| == |parts|
    ensures forall i :: 0 <= i < |parts| ==> r[i] == Upper(parts[i])
    ensures forall i :: 0 <= i < |parts| && ':' !in parts[i] ==> ':' !in r[i]
  {
    if parts == [] then []
    else
      UpperKeeps(parts[0], ':');
      [Upper(parts[0])] + UpperAll(parts[1..])
  }

  /** account_string_components: the original pieces and their canonical spelling. */
  function AccountStringComponents(s: string): (c: Components)
    ensures c.original == Split(s, ':')
    ensures |c.regular| == |c.original| >= 1
    ensures c.regular[0] == RootAccountName(s)
    ensures forall i :: 1 <= i < |c.regular| ==> c.regular[i] == Upper(c.original[i])
    ensures forall i :: 0 <= i < |c.regular| ==> ':' !in c.regular[i]
  {
    var original := Split(s, ':');
    var rest := UpperAll(original[1..]);
    var regular := [RootAccountName(s)] + rest;
    assert forall i :: 1 <= i < |regular| ==> regular[i] == rest[i - 1];
    Components(original, regular)
  }

  /** The canonical path of an account string. */
  function Regular(s: string): (path: seq<string>)
    ensures |path| >= 1
  {
    AccountStringComponents(s).regular
  }

  /** Joining the original pieces gives the account string back. */
  lemma OriginalJoin(s: string)
    ensures Join(AccountStringComponents(s).original, ":") == s
  {
    JoinSplit(s, ':');
  }

  /** A path already in canonical spelling: no `:` inside a component, every component
      upper case, the root regularised. */
  predicate Canonical(parts: seq<string>) {
    && |parts| >= 1
    && (forall i :: 0 <= i < |parts| ==> ':' !in parts[i] && Upper(parts[i]) == parts[i])
    && Regularise(parts[0]) == parts[0]
  }

  lemma RegularCanonical(s: string)
    ensures Canonical(Regular(s))
  {
    var c := AccountStringComponents(s);
    UpperIdempotent(Split(s, ':')[0]);
    forall i | 1 <= i < |c.regular|
      ensures Upper(c.regular[i]) == c.regular[i]
    {
      UpperIdempotent(c.original[i]);
    }
  }

  /** Writing a canonical path with `:` and canonicalising it again gives the path back. */
  lemma JoinCanonical(parts: seq<string>)
    requires Canonical(parts)
    ensures Regular(Join(parts, ":")) == parts
  {
    SplitJoin(parts, ':');
    var c := AccountStringComponents(Join(parts, ":"));
    assert c.original == parts;
    assert c.regular[0] == parts[0];
  }

  /** A canonical name, or any ancestor of it written as a `:`-joined string, canonicalises to itself.
      This is why looking up the joined ancestor names finds the nodes on the account's path. */
  lemma RegularOfJoinedPrefix(s: string, k: nat)
    requires 1 <= k <= |Regular(s)|
    ensures Regular(Join(Regular(s)[..k], ":")) == Regular(s)[..k]
  {
    RegularCanonical(s);
    var parts := Regular(s)[..k];
    assert parts[0] == Regular(s)[0];
    JoinCanonical(parts);
  }

  lemma RegularIdempotent(s: string)
    ensures Regular(Join(Regular(s), ":")) == Regular(s)
  {
    RegularOfJoinedPrefix(s, |Regular(s)|);
    assert Regular(s)[..|Regular(s)|] == Regular(s);
  }

  /** is_prefix_of: `list1 == list2[:len(list1)]` with Python's clamping slice. */
  function IsPrefixOf(list1: seq<string>, list2: seq<string>): (b: bool)
    ensures b <==> |list1| <= |list2| && forall i :: 0 <= i < |list1| ==> list1[i] == list2[i]
  {
    if |list1| <= |list2| then list1 == list2[..|list1|] else list1 == list2
  }

  /** contains_account: `a` names `b` or one of its ancestors. */
  predicate ContainsAccount(a: string, b: string) {
    IsPrefixOf(Regular(a), Regular(b))
  }

  lemma ContainsReflexive(a: string)
    ensures ContainsAccount(a, a)
  {
  }

  lemma ContainsTransitive(a: string, b: string, c: string)
    requires ContainsAccount(a, b) && ContainsAccount(b, c)
    ensures ContainsAccount(a, c)
  {
  }

  /** Accounts under different roots never contain each other. */
  lemma ContainsSameRoot(a: string, b: string)
    requires ContainsAccount(a, b)
    ensures RootAccountName(a) == RootAccountName(b)
  {
  }

  /** Spelling does not matter: accounts with the same canonical path contain the same accounts. */
  lemma ContainsCaseInsensitive(a: string, a': string, b: string)
    requires Regular(a) == Regular(a')
    ensures ContainsAccount(a, b) <==> ContainsAccount(a', b)
  {
  }

  /** The canonical names of the account and all its ancestors, shortest first. */
  function AncestorNames(s: string): (names: seq<string>)
    ensures |names| == |Regular(s)|
    ensures forall k :: 0 <= k < |names| ==> Regular(names[k]) == Regular(s)[..k + 1]
    ensures forall k :: 0 <= k < |names| ==> ContainsAccount(names[k], s)
  {
    var reg := Regular(s);
    var names := seq(|reg|, k requires 0 <= k < |reg| => Join(reg[..k + 1], ":"));
    assert forall k :: 0 <= k < |names| ==> Regular(names[k]) == Regular(s)[..k + 1] by {
      forall k | 0 <= k < |names|
        ensures Regular(names[k]) == Regular(s)[..k + 1]
      {
        RegularOfJoinedPrefix(s, k + 1);
      }
    }
    names
  }

  /** account_string_and_parents, with its loop: each name extends the previous one by
      `":" + component`. */
  method AccountStringAndParents(s: string) returns (names: seq<string>)
    ensures names == AncestorNames(s)
  {
    var components := Regular(s);
    var current := components[0];
    assert components[..1] == [components[0]];
    names := [current];
    var i := 1;
    while i < |components|
      invariant 1 <= i <= |components|
      invariant current == Join(components[..i], ":")
      invariant |names| == i
      invariant forall k :: 0 <= k < i ==> names[k] == Join(components[..k + 1], ":")
    {
      JoinSnoc(components[..i], components[i], ":");
      assert components[..i + 1] == components[..i] + [components[i]];
      current := current + ":" + components[i];
      names := names + [current];
      i := i + 1;
    }
  }

  // The account-name assertions of the unit tests.

  /** The root of an account string written as `:`-joined pieces is read from the first piece. */
  lemma RootOfPieces(s: string, parts: seq<string>)
    requires |parts| >= 1 && forall i :: 0 <= i < |parts| ==> ':' !in parts[i]
    requires s == Join(parts, ":")
    ensures RootAccountName(s) == Regularise(Upper(parts[0]))
  {
    SplitJoin(parts, ':');
  }

  /** The components of an account string written as `:`-joined pieces. */
  lemma ComponentsOfPieces(s: string, parts: seq<string>)
    requires |parts| >= 1 && forall i :: 0 <= i < |parts| ==> ':' !in parts[i]
    requires s == Join(parts, ":")
    ensures AccountStringComponents(s) == Components(parts, [Regularise(Upper(parts[0]))] + UpperAll(parts[1..]))
  {
    SplitJoin(parts, ':');
  }

  lemma EquityMatthewRoot()
    ensures RootAccountName("Equity:Matthew") == "EQUITY"
  {
    var parts := ["Equity", "Matthew"];
    assert Join(parts, ":") == "Equity:Matthew" by {
      assert parts[1..] == ["Matthew"];
    }
    assert RootAccountName("Equity:Matthew") == "EQUITY" by {
      assert Upper("Equity") == "EQUITY";
      assert Regularise("EQUITY") == "EQUITY";
      RootOfPieces("Equity:Matthew", parts);
    }
  }

  lemma AssetsCashRoot()
    ensures RootAccountName("Assets:Cash") == "ASSETS"
  {
    var parts := ["Assets", "Cash"];
    assert Join(parts, ":") == "Assets:Cash" by {
      assert parts[1..] == ["Cash"];
    }
    assert RootAccountName("Assets:Cash") == "ASSETS" by {
      assert Upper("Assets") == "ASSETS";
      assert Regularise("ASSETS") == "ASSETS";
      RootOfPieces("Assets:Cash", parts);
    }
  }

  lemma AssetCashRoot()
    ensures RootAccountName("Asset:Cash") == "ASSETS"
  {
    var parts := ["Asset", "Cash"];
    assert Join(parts, ":") == "Asset:Cash" by {
      assert parts[1..] == ["Cash"];
    }
    assert RootAccountName("Asset:Cash") == "ASSETS" by {
      assert Upper("Asset") == "ASSET";
      assert Regularise("ASSET") == "ASSETS";
      RootOfPieces("Asset:Cash", parts);
    }
  }

  lemma LiabilityRoot()
    ensures RootAccountName("liability") == "LIABILITIES"
  {
    assert RootAccountName("liability") == "LIABILITIES" by {
      assert Upper("liability") == "LIABILITY";
      assert Regularise("LIABILITY") == "LIABILITIES";
      RootOfPieces("liability", ["liability"]);
    }
  }

  lemma ExpenseRoot()
    ensures RootAccountName("expense") == "EXPENSES"
  {
    assert RootAccountName("expense") == "EXPENSES" by {
      assert Upper("expense") == "EXPENSE";
      assert Regularise("EXPENSE") == "EXPENSES";
      RootOfPieces("expense", ["expense"]);
    }
  }

  /** The root names of the unit tests: upper-cased, singulars made plural. */
  lemma RootAccountNameExamples()
    ensures RootAccountName("Equity:Matthew") == "EQUITY"
    ensures RootAccountName("Assets:Cash") == "ASSETS"
    ensures RootAccountName("Asset:Cash") == "ASSETS"
    ensures RootAccountName("liability") == "LIABILITIES"
    ensures RootAccountName("expense") == "EXPENSES"
  {
    EquityMatthewRoot();
    AssetsCashRoot();
    AssetCashRoot();
    LiabilityRoot();
    ExpenseRoot();
  }

  lemma AssetsMatthewRoot()
    ensures RootAccountName("assets:matthew") == "ASSETS"
  {
    var parts := ["assets", "matthew"];
    assert Join(parts, ":") == "assets:matthew" by {
      assert parts[1..] == ["matthew"];
    }
    assert RootAccountName("assets:matthew") == "ASSETS" by {
      assert Upper("assets") == "ASSETS";
      assert Regularise("ASSETS") == "ASSETS";
      RootOfPieces("assets:matthew", parts);
    }
  }

  /** A `.` is not a separator: "assets.matthew" has the single, unknown root ASSETS.MATTHEW. */
  lemma AssetsDotInvalid()
    ensures !IsValidAccountString("assets.matthew")
  {
    RootOfPieces("assets.matthew", ["assets.matthew"]);
    assert |Upper("assets.matthew")| == 14;
    SignAccountCases("assets.matthew");
  }

  lemma ValidAccountExamples()
    ensures !IsValidAccountString("assets.matthew")
    ensures IsValidAccountString("assets:matthew")
  {
    AssetsDotInvalid();
    AssetsMatthewRoot();
    SignAccountCases("assets:matthew");
  }

  lemma ComponentsExample()
    ensures AccountStringComponents("equity:foo") == Components(["equity", "foo"], ["EQUITY", "FOO"])
  {
    var parts := ["equity", "foo"];
    assert Join(parts, ":") == "equity:foo" by {
      assert parts[1..] == ["foo"];
    }
    assert AccountStringComponents("equity:foo") == Components(["equity", "foo"], ["EQUITY", "FOO"]) by {
      assert Upper("equity") == "EQUITY";
      assert Regularise("EQUITY") == "EQUITY";
      assert Upper("foo") == "FOO";
      assert UpperAll(["foo"]) == ["FOO"];
      assert parts[1..] == ["foo"];
      ComponentsOfPieces("equity:foo", parts);
    }
  }

  lemma IncomeRegular()
    ensures Regular("Income") == ["INCOME"]
  {
    assert Regular("Income") == ["INCOME"] by {
      assert Upper("Income") == "INCOME";
      assert Regularise("INCOME") == "INCOME";
      ComponentsOfPieces("Income", ["Income"]);
    }
  }

  lemma IncomeSalaryRoot()
    ensures RootAccountName("Income:Salary") == "INCOME"
  {
    var parts := ["Income", "Salary"];
    assert Join(parts, ":") == "Income:Salary" by {
      assert parts[1..] == ["Salary"];
    }
    assert RootAccountName("Income:Salary") == "INCOME" by {
      assert Upper("Income") == "INCOME";
      assert Regularise("INCOME") == "INCOME";
      RootOfPieces("Income:Salary", parts);
    }
  }

  lemma ExpensesPhoneRoot()
    ensures RootAccountName("Expenses:Phone") == "EXPENSES"
  {
    var parts := ["Expenses", "Phone"];
    assert Join(parts, ":") == "Expenses:Phone" by {
      assert parts[1..] == ["Phone"];
    }
    assert RootAccountName("Expenses:Phone") == "EXPENSES" by {
      assert Upper("Expenses") == "EXPENSES";
      assert Regularise("EXPENSES") == "EXPENSES";
      RootOfPieces("Expenses:Phone", parts);
    }
  }

  /** Income contains Income:Salary but not Expenses:Phone. */
  lemma ContainsAccountExamples()
    ensures ContainsAccount("Income", "Income:Salary")
    ensures !ContainsAccount("Income", "Expenses:Phone")
  {
    IncomeRegular();
    IncomeSalaryRoot();
    ExpensesPhoneRoot();
    assert Regular("Income:Salary")[0] == RootAccountName("Income:Salary");
    assert Regular("Expenses:Phone")[0] == RootAccountName("Expenses:Phone");
  }
}
