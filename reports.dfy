/** The reports over the account tree: chart_of_accounts, single_unit_balances_helper with
    find_original_prefix. */
module Reports {
  import opened Text
  import opened Results
  import opened Accounts
  import opened Amounts
  import opened Journal
  import opened Tree
  import opened Engine

  type Nodes = map<Path, Account>

  // ---------------------------------------------------------------------------------------
  // the children of a node, in the order of `keys().sort()`

  /** The canonical components of the children of the node at `p`. */
  function Children(nodes: Nodes, p: Path): (cs: set<string>)
    ensures forall c :: c in cs <==> p + [c] in nodes
  {
    var cs := set k | k in nodes && |k| == |p| + 1 && k[..|p|] == p :: k[|p|];
    assert forall c :: p + [c] in nodes ==> (p + [c])[..|p|] == p && (p + [c])[|p|] == c;
    assert forall k :: k in nodes && |k| == |p| + 1 && k[..|p|] == p ==> k == p + [k[|p|]];
    cs
  }

  predicate IsLeast(s: set<string>, m: string) {
    m in s && forall x :: x in s ==> Le(m, x)
  }

  lemma {:induction false} LeastExists(s: set<string>)
    requires s != {}
    ensures exists m :: IsLeast(s, m)
    decreases |s|
  {
    var z :| z in s;
    if s - {z} != {} {
      LeastExists(s - {z});
      var m :| IsLeast(s - {z}, m);
      LeTotal(m, z);
      if Le(m, z) {
        assert IsLeast(s, m);
      } else {
        forall x | x in s
          ensures Le(z, x)
        {
          if x != z {
            LeTransitive(z, m, x);
          }
        }
        assert IsLeast(s, z);
      }
    } else {
      assert s == {z};
      assert IsLeast(s, z);
    }
  }

  lemma LeastUnique(s: set<string>)
    ensures forall a, b :: IsLeast(s, a) && IsLeast(s, b) ==> a == b
  {
    forall a, b | IsLeast(s, a) && IsLeast(s, b)
      ensures a == b
    {
      LeAntisymmetric(a, b);
    }
  }

  /** The least string of a non-empty set. */
  function Least(s: set<string>): (m: string)
    requires s != {}
    ensures IsLeast(s, m)
  {
    LeastExists(s);
    LeastUnique(s);
    var m :| IsLeast(s, m);
    m
  }

  /** The strings of a set in ascending order, as `sort()` leaves a list of distinct keys. */
  function SortedSet(s: set<string>): (r: seq<string>)
    ensures |r| == |s|
    ensures forall x :: x in r <==> x in s
    ensures forall i, j :: 0 <= i < j < |r| ==> Lt(r[i], r[j])
    decreases |s|
  {
    if s == {} then []
    else
      var m := Least(s);
      var rest := SortedSet(s - {m});
      assert forall j :: 0 <= j < |rest| ==> rest[j] in s - {m} && Lt(m, rest[j]);
      var r := [m] + rest;
      assert r[0] == m && forall i :: 1 <= i < |r| ==> r[i] == rest[i - 1];
      r
  }

  /** The children of `p` in the order the reports visit them. */
  function SortedChildren(nodes: Nodes, p: Path): (cs: seq<string>)
    ensures forall i :: 0 <= i < |cs| ==> p + [cs[i]] in nodes
  {
    SortedSet(Children(nodes, p))
  }

  /** Siblings come in strictly ascending canonical order, and every child comes. */
  lemma SortedChildrenMeaning(nodes: Nodes, p: Path)
    ensures forall i, j :: 0 <= i < j < |SortedChildren(nodes, p)| ==> Lt(SortedChildren(nodes, p)[i], SortedChildren(nodes, p)[j])
    ensures forall c :: c in SortedChildren(nodes, p) <==> p + [c] in nodes
  {
  }

  // ---------------------------------------------------------------------------------------
  // the walk both reports make

  /** The nodes strictly below `p`. */
  function Below(nodes: Nodes, p: Path): set<Path> {
    set k | k in nodes && |p| < |k| && k[..|p|] == p
  }

  lemma BelowShrinks(nodes: Nodes, p: Path, c: string)
    requires p + [c] in nodes
    ensures |Below(nodes, p + [c])| < |Below(nodes, p)|
  {
    var q := p + [c];
    forall k | k in Below(nodes, q)
      ensures k in Below(nodes, p)
    {
      assert k[..|p|] == k[..|q|][..|p|];
    }
    assert q[..|p|] == p;
    assert q in Below(nodes, p) && q !in Below(nodes, q);
    SubsetCardinality(Below(nodes, q), Below(nodes, p) - {q});
  }

  /** One node the walk visits: its path, its depth of indentation, the text it is shown
      with (the prefix it inherited, then its spelling), and whether it gets a line: a node
      with exactly one child and no postings of its own gets none, its child carrying its
      name as a prefix instead. */
  datatype Entry = Entry(path: Path, depth: nat, text: string, shown: bool)

  /** The walk over the children of `p`, in ascending order. */
  function Walk(nodes: Nodes, p: Path, prefix: string, depth: nat): (es: seq<Entry>)
    ensures forall i :: 0 <= i < |es| ==> es[i].path in nodes
    decreases |Below(nodes, p)|, 1, 0
  {
    WalkList(nodes, p, SortedChildren(nodes, p), prefix, depth)
  }

  function WalkList(nodes: Nodes, p: Path, cs: seq<string>, prefix: string, depth: nat): (es: seq<Entry>)
    requires forall i :: 0 <= i < |cs| ==> p + [cs[i]] in nodes
    ensures forall i :: 0 <= i < |es| ==> es[i].path in nodes
    decreases |Below(nodes, p)|, 0, |cs|
  {
    if cs == [] then []
    else
      BelowShrinks(nodes, p, cs[0]);
      WalkNode(nodes, p + [cs[0]], prefix, depth) + WalkList(nodes, p, cs[1..], prefix, depth)
  }

  /** The collapse rule: a childless node is shown; a node with one child and no postings
      of its own is not, and its child inherits the prefix extended with its name and a
      colon at the same depth; any other node is shown, and its children follow one level
      deeper with no prefix. */
  function WalkNode(nodes: Nodes, q: Path, prefix: string, depth: nat): (es: seq<Entry>)
    requires q in nodes
    ensures forall i :: 0 <= i < |es| ==> es[i].path in nodes
    decreases |Below(nodes, q)|, 2, 0
  {
    var a := nodes[q];
    var kids := Children(nodes, q);
    if |kids| == 0 then [Entry(q, depth, prefix + a.name, true)]
    else if |kids| == 1 && !a.hasOwnPostings then
      [Entry(q, depth, prefix + a.name, false)] + Walk(nodes, q, prefix + a.name + ":", depth)
    else
      [Entry(q, depth, prefix + a.name, true)] + Walk(nodes, q, "", depth + 1)
  }

  /** A node has no line exactly when it has one child and no postings of its own. */
  predicate Collapsed(nodes: Nodes, q: Path)
    requires q in nodes
  {
    |Children(nodes, q)| == 1 && !nodes[q].hasOwnPostings
  }

  lemma {:induction false} WalkShown(nodes: Nodes, p: Path, prefix: string, depth: nat)
    ensures forall i :: 0 <= i < |Walk(nodes, p, prefix, depth)| ==>
              (Walk(nodes, p, prefix, depth)[i].shown <==> !Collapsed(nodes, Walk(nodes, p, prefix, depth)[i].path))
    decreases |Below(nodes, p)|, 1, 0
  {
    WalkListShown(nodes, p, SortedChildren(nodes, p), prefix, depth);
  }

  lemma {:induction false} WalkListShown(nodes: Nodes, p: Path, cs: seq<string>, prefix: string, depth: nat)
    requires forall i :: 0 <= i < |cs| ==> p + [cs[i]] in nodes
    ensures forall i :: 0 <= i < |WalkList(nodes, p, cs, prefix, depth)| ==>
              (WalkList(nodes, p, cs, prefix, depth)[i].shown <==> !Collapsed(nodes, WalkList(nodes, p, cs, prefix, depth)[i].path))
    decreases |Below(nodes, p)|, 0, |cs|
  {
    if cs != [] {
      BelowShrinks(nodes, p, cs[0]);
      WalkNodeShown(nodes, p + [cs[0]], prefix, depth);
      WalkListShown(nodes, p, cs[1..], prefix, depth);
    }
  }

  lemma {:induction false} WalkNodeShown(nodes: Nodes, q: Path, prefix: string, depth: nat)
    requires q in nodes
    ensures forall i :: 0 <= i < |WalkNode(nodes, q, prefix, depth)| ==>
              (WalkNode(nodes, q, prefix, depth)[i].shown <==> !Collapsed(nodes, WalkNode(nodes, q, prefix, depth)[i].path))
    decreases |Below(nodes, q)|, 2, 0
  {
    var a := nodes[q];
    if |Children(nodes, q)| == 1 && !a.hasOwnPostings {
      WalkShown(nodes, q, prefix + a.name + ":", depth);
    } else if |Children(nodes, q)| != 0 {
      WalkShown(nodes, q, "", depth + 1);
    }
  }

  /** The walk from a node starts at the node itself, with the prefix it was given. */
  lemma WalkNodeFirst(nodes: Nodes, q: Path, prefix: string, depth: nat)
    requires q in nodes
    ensures WalkNode(nodes, q, prefix, depth) != []
    ensures WalkNode(nodes, q, prefix, depth)[0] == Entry(q, depth, prefix + nodes[q].name, !Collapsed(nodes, q))
  {
  }

  /** The paths the entries are about. */
  function PathsOf(es: seq<Entry>): set<Path> {
    set i | 0 <= i < |es| :: es[i].path
  }

  lemma PathsOfAppend(a: seq<Entry>, b: seq<Entry>)
    ensures PathsOf(a + b) == PathsOf(a) + PathsOf(b)
  {
    forall k | k in PathsOf(a + b)
      ensures k in PathsOf(a) + PathsOf(b)
    {
      var i :| 0 <= i < |a + b| && (a + b)[i].path == k;
      if i >= |a| {
        assert b[i - |a|].path == k;
      }
    }
    forall k | k in PathsOf(a) + PathsOf(b)
      ensures k in PathsOf(a + b)
    {
      if k in PathsOf(a) {
        var i :| 0 <= i < |a| && a[i].path == k;
        assert (a + b)[i].path == k;
      } else {
        var i :| 0 <= i < |b| && b[i].path == k;
        assert (a + b)[|a| + i].path == k;
      }
    }
  }

  /** The children `cs` of `p` and every node below them. */
  function Spanned(nodes: Nodes, p: Path, cs: seq<string>): set<Path>
    decreases |cs|
  {
    if cs == [] then {} else {p + [cs[0]]} + Below(nodes, p + [cs[0]]) + Spanned(nodes, p, cs[1..])
  }

  lemma {:induction false} SpannedMember(nodes: Nodes, p: Path, cs: seq<string>, k: Path)
    ensures k in Spanned(nodes, p, cs) <==> exists j :: 0 <= j < |cs| && (k == p + [cs[j]] || k in Below(nodes, p + [cs[j]]))
    decreases |cs|
  {
    if cs != [] {
      SpannedMember(nodes, p, cs[1..], k);
      if exists j :: 0 <= j < |cs| && (k == p + [cs[j]] || k in Below(nodes, p + [cs[j]])) {
        var j :| 0 <= j < |cs| && (k == p + [cs[j]] || k in Below(nodes, p + [cs[j]]));
        if j > 0 {
          assert cs[1..][j - 1] == cs[j];
        }
      }
      if k in Spanned(nodes, p, cs[1..]) {
        var j :| 0 <= j < |cs[1..]| && (k == p + [cs[1..][j]] || k in Below(nodes, p + [cs[1..][j]]));
        assert cs[1..][j] == cs[j + 1];
      }
    }
  }

  /** In a tree where every node's parent is a node, the nodes below `p` are its children
      and the nodes below them. */
  lemma BelowSpanned(nodes: Nodes, p: Path)
    requires PrefixClosed(nodes)
    ensures Below(nodes, p) == Spanned(nodes, p, SortedChildren(nodes, p))
  {
    forall k | k in Below(nodes, p)
      ensures k in Spanned(nodes, p, SortedChildren(nodes, p))
    {
      BelowInSpanned(nodes, p, k);
    }
    forall k | k in Spanned(nodes, p, SortedChildren(nodes, p))
      ensures k in Below(nodes, p)
    {
      SpannedInBelow(nodes, p, SortedChildren(nodes, p), k);
    }
  }

  lemma BelowInSpanned(nodes: Nodes, p: Path, k: Path)
    requires PrefixClosed(nodes) && k in Below(nodes, p)
    ensures k in Spanned(nodes, p, SortedChildren(nodes, p))
  {
    var cs := SortedChildren(nodes, p);
    var c := k[|p|];
    AncestorPresent(nodes, k, |p| + 1);
    assert k[..|p|] == p;
    assert k[..|p| + 1] == k[..|p|] + [k[|p|]];
    assert c in cs;
    var j :| 0 <= j < |cs| && cs[j] == c;
    if k != p + [c] {
      assert k[..|p + [c]|] == p + [c];
      assert k in Below(nodes, p + [cs[j]]);
    }
    SpannedMember(nodes, p, cs, k);
  }

  lemma SpannedInBelow(nodes: Nodes, p: Path, cs: seq<string>, k: Path)
    requires forall i :: 0 <= i < |cs| ==> p + [cs[i]] in nodes
    requires k in Spanned(nodes, p, cs)
    ensures k in Below(nodes, p)
  {
    SpannedMember(nodes, p, cs, k);
    var j :| 0 <= j < |cs| && (k == p + [cs[j]] || k in Below(nodes, p + [cs[j]]));
    var q := p + [cs[j]];
    assert q[..|p|] == p;
    if k != q {
      assert k[..|p|] == k[..|q|][..|p|];
    }
  }

  lemma {:induction false} AncestorPresent(nodes: Nodes, k: Path, n: nat)
    requires PrefixClosed(nodes) && k in nodes && n <= |k|
    ensures k[..n] in nodes
    decreases |k| - n
  {
    if n < |k| {
      AncestorPresent(nodes, k, n + 1);
      assert k[..n + 1][..n] == k[..n];
    } else {
      assert k[..n] == k;
    }
  }

  /** In a tree where every node's parent is a node, the walk below `p` visits every node
      below `p` and nothing else. */
  lemma {:induction false} WalkCovers(nodes: Nodes, p: Path, prefix: string, depth: nat)
    requires PrefixClosed(nodes)
    ensures PathsOf(Walk(nodes, p, prefix, depth)) == Below(nodes, p)
    decreases |Below(nodes, p)|, 1, 0
  {
    WalkListCovers(nodes, p, SortedChildren(nodes, p), prefix, depth);
    BelowSpanned(nodes, p);
  }

  lemma {:induction false} WalkListCovers(nodes: Nodes, p: Path, cs: seq<string>, prefix: string, depth: nat)
    requires PrefixClosed(nodes)
    requires forall i :: 0 <= i < |cs| ==> p + [cs[i]] in nodes
    ensures PathsOf(WalkList(nodes, p, cs, prefix, depth)) == Spanned(nodes, p, cs)
    decreases |Below(nodes, p)|, 0, |cs|
  {
    if cs != [] {
      BelowShrinks(nodes, p, cs[0]);
      WalkNodeCovers(nodes, p + [cs[0]], prefix, depth);
      WalkListCovers(nodes, p, cs[1..], prefix, depth);
      PathsOfAppend(WalkNode(nodes, p + [cs[0]], prefix, depth), WalkList(nodes, p, cs[1..], prefix, depth));
    }
  }

  lemma {:induction false} WalkNodeCovers(nodes: Nodes, q: Path, prefix: string, depth: nat)
    requires PrefixClosed(nodes) && q in nodes
    ensures PathsOf(WalkNode(nodes, q, prefix, depth)) == {q} + Below(nodes, q)
    decreases |Below(nodes, q)|, 2, 0
  {
    var a := nodes[q];
    var head := [Entry(q, depth, prefix + a.name, !Collapsed(nodes, q))];
    assert head[0].path == q;
    assert PathsOf(head) == {q} by {
      forall k | k in PathsOf(head)
        ensures k == q
      {
        var i :| 0 <= i < |head| && head[i].path == k;
      }
    }
    if |Children(nodes, q)| == 0 {
      assert SortedChildren(nodes, q) == [];
      BelowSpanned(nodes, q);
      assert WalkNode(nodes, q, prefix, depth) == head;
    } else if Collapsed(nodes, q) {
      WalkCovers(nodes, q, prefix + a.name + ":", depth);
      PathsOfAppend(head, Walk(nodes, q, prefix + a.name + ":", depth));
    } else {
      WalkCovers(nodes, q, "", depth + 1);
      PathsOfAppend(head, Walk(nodes, q, "", depth + 1));
    }
  }

  // ---------------------------------------------------------------------------------------
  // chart_of_accounts

  /** `n` spaces. */
  function Spaces(n: nat): (s: string)
    ensures |s| == n && forall i :: 0 <= i < n ==> s[i] == ' '
  {
    seq(n, _ => ' ')
  }

  /** The lines of the shown entries: the indent, two spaces per level, then the text. */
  function ChartLines(es: seq<Entry>, indent: string): (lines: seq<string>)
    ensures forall i :: 0 <= i < |lines| ==> |indent| <= |lines[i]| && lines[i][..|indent|] == indent
    decreases |es|
  {
    if es == [] then []
    else
      var e := es[|es| - 1];
      var line := indent + Spaces(2 * e.depth) + e.text;
      assert line[..|indent|] == indent;
      ChartLines(es[..|es| - 1], indent) + if e.shown then [line] else []
  }

  /** chart_of_accounts on the children of the node at `p`. */
  function ChartOfAccounts(nodes: Nodes, p: Path, prefix: string, indent: string): seq<string> {
    ChartLines(Walk(nodes, p, prefix, 0), indent)
  }

  /** The number of shown entries. */
  function ShownCount(es: seq<Entry>): nat
    decreases |es|
  {
    if es == [] then 0 else ShownCount(es[..|es| - 1]) + if es[|es| - 1].shown then 1 else 0
  }

  /** The shown entries, in walk order. */
  function ShownEntries(es: seq<Entry>): (shown: seq<Entry>)
    ensures |shown| == ShownCount(es)
    ensures forall k :: 0 <= k < |shown| ==> shown[k] in es && shown[k].shown
    decreases |es|
  {
    if es == [] then []
    else ShownEntries(es[..|es| - 1]) + if es[|es| - 1].shown then [es[|es| - 1]] else []
  }

  /** The k-th chart line is the indent, two spaces per level and the text of the k-th
      shown entry. */
  lemma {:induction false} ChartLinesMeaning(es: seq<Entry>, indent: string)
    ensures |ChartLines(es, indent)| == |ShownEntries(es)|
    ensures forall k :: 0 <= k < |ShownEntries(es)| ==>
              ChartLines(es, indent)[k] == indent + Spaces(2 * ShownEntries(es)[k].depth) + ShownEntries(es)[k].text
    decreases |es|
  {
    if es != [] {
      ChartLinesMeaning(es[..|es| - 1], indent);
    }
  }

  /** One line per shown entry. */
  lemma {:induction false} ChartLinesCount(es: seq<Entry>, indent: string)
    ensures |ChartLines(es, indent)| == ShownCount(es)
    decreases |es|
  {
    if es != [] {
      ChartLinesCount(es[..|es| - 1], indent);
    }
  }

  // ---------------------------------------------------------------------------------------
  // find_original_prefix

  /** The spellings of the first `n` nodes from the top-level account down to `r`. */
  function SpellingsUpTo(nodes: Nodes, r: Path, n: nat): (names: seq<string>)
    requires n <= |r| && forall j :: 1 <= j <= n ==> r[..j] in nodes
    ensures |names| == n && forall k :: 0 <= k < n ==> names[k] == nodes[r[..k + 1]].name
  {
    if n == 0 then [] else SpellingsUpTo(nodes, r, n - 1) + [nodes[r[..n]].name]
  }

  /** The spellings of the nodes above the account at `r`, from the top-level account down. */
  function AncestorSpellings(nodes: Nodes, r: Path): (names: seq<string>)
    requires 1 <= |r| && Prefixes(r) <= nodes.Keys
    ensures |names| == |r| - 1 && forall k :: 0 <= k < |r| - 1 ==> names[k] == nodes[r[..k + 1]].name
  {
    assert forall j :: 1 <= j <= |r| ==> r[..j] in Prefixes(r);
    SpellingsUpTo(nodes, r, |r| - 1)
  }

  /** The concatenation of a list of strings. */
  function Concat(ss: seq<string>): string
    decreases |ss|
  {
    if ss == [] then "" else Concat(ss[..|ss| - 1]) + ss[|ss| - 1]
  }

  /** A concatenation of colon-free strings is colon-free. */
  lemma {:induction false} ConcatColonFree(ss: seq<string>)
    ensures (forall k :: 0 <= k < |ss| ==> ':' !in ss[k]) ==> ':' !in Concat(ss)
    decreases |ss|
  {
    if ss != [] {
      var n := |ss| - 1;
      assert forall k :: 0 <= k < n ==> ss[..n][k] == ss[k];
      ConcatColonFree(ss[..n]);
    }
  }

  /** find_original_prefix as written: the ancestors' spellings run together with no colon
      between them, and one colon after them unless that is empty. So when no spelling holds
      a colon, the prefix holds at most one, at its very end, however deep the account. */
  function PrefixAsWritten(nodes: Nodes, r: Path): (prefix: string)
    requires 1 <= |r| && Prefixes(r) <= nodes.Keys
    ensures (forall k :: 0 <= k < |AncestorSpellings(nodes, r)| ==> ':' !in AncestorSpellings(nodes, r)[k]) ==>
              forall i :: 0 <= i < |prefix| - 1 ==> prefix[i] != ':'
  {
    ConcatColonFree(AncestorSpellings(nodes, r));
    var joined := Concat(AncestorSpellings(nodes, r));
    if |joined| > 0 then joined + ":" else joined
  }

  /** find_original_prefix as evidently intended: each ancestor's spelling followed by a
      colon, the form chart_of_accounts gives a collapsed chain. */
  function PrefixFixed(nodes: Nodes, r: Path): string
    requires 1 <= |r| && Prefixes(r) <= nodes.Keys
  {
    if |r| == 1 then "" else Join(AncestorSpellings(nodes, r), ":") + ":"
  }

  /** find_original_prefix on an account string, with the colons put back: not found
      unless every node from the top-level account down to the account is present. */
  function OriginalPrefix(nodes: Nodes, s: string): (r: Result<string>)
    ensures r.Err? <==> !(Prefixes(Regular(s)) <= nodes.Keys)
    ensures r.Err? ==> r.error == AccountNotFound(s)
    ensures r.Ok? ==> 1 <= |Regular(s)| && r.value == PrefixFixed(nodes, Regular(s))
  {
    var r := Regular(s);
    if Prefixes(r) <= nodes.Keys then Ok(PrefixFixed(nodes, r)) else Err(AccountNotFound(s))
  }

  /** The corrected prefix followed by the account's own spelling splits at the colons into
      the spellings along the path, when no spelling holds a colon. */
  lemma PrefixFixedSplits(nodes: Nodes, r: Path)
    requires 1 <= |r| && Prefixes(r) <= nodes.Keys
    requires forall k :: 1 <= k <= |r| ==> ':' !in nodes[r[..k]].name
    ensures assert r[..|r|] in Prefixes(r);
            Split(PrefixFixed(nodes, r) + nodes[r[..|r|]].name, ':') == AncestorSpellings(nodes, r) + [nodes[r[..|r|]].name]
  {
    assert r[..|r|] in Prefixes(r);
    var names := AncestorSpellings(nodes, r);
    var leaf := nodes[r[..|r|]].name;
    if |r| == 1 {
      SplitJoin([leaf], ':');
      assert PrefixFixed(nodes, r) + leaf == leaf == Join([leaf], [':']);
      assert names + [leaf] == [leaf];
    } else {
      JoinSnoc(names, leaf, ":");
      forall i | 0 <= i < |names + [leaf]|
        ensures ':' !in (names + [leaf])[i]
      {
        if i < |names| {
          assert names[i] == nodes[r[..i + 1]].name;
        }
      }
      SplitJoin(names + [leaf], ':');
    }
  }

  /** Three levels: as written the two ancestors' spellings run together. */
  lemma PrefixAsWrittenLosesColon()
    ensures var nodes := map[[] := MakeAccount(""), ["EXPENSES"] := MakeAccount("Expenses"),
                             ["EXPENSES", "FOOD"] := MakeAccount("Food"),
                             ["EXPENSES", "FOOD", "LUNCH"] := MakeAccount("Lunch")];
            var r := ["EXPENSES", "FOOD", "LUNCH"];
            Prefixes(r) <= nodes.Keys
            && PrefixAsWritten(nodes, r) == "ExpensesFood:"
            && PrefixFixed(nodes, r) == "Expenses:Food:"
  {
    var nodes := map[[] := MakeAccount(""), ["EXPENSES"] := MakeAccount("Expenses"),
                     ["EXPENSES", "FOOD"] := MakeAccount("Food"),
                     ["EXPENSES", "FOOD", "LUNCH"] := MakeAccount("Lunch")];
    var r := ["EXPENSES", "FOOD", "LUNCH"];
    assert r[..1] == ["EXPENSES"] && r[..2] == ["EXPENSES", "FOOD"] && r[..3] == r;
    PrefixesPresent(r, nodes.Keys);
    var names := AncestorSpellings(nodes, r);
    assert names == ["Expenses", "Food"];
    LunchAsWritten(nodes, r, names);
    LunchFixed(nodes, r, names);
  }

  /** The corrected half of PrefixAsWrittenLosesColon. */
  lemma LunchFixed(nodes: Nodes, r: Path, names: seq<string>)
    requires 1 <= |r| && Prefixes(r) <= nodes.Keys
    requires names == AncestorSpellings(nodes, r) && names == ["Expenses", "Food"] && |r| == 3
    ensures PrefixFixed(nodes, r) == "Expenses:Food:"
  {
    assert names[1..] == ["Food"];
    assert Join(names, ":") == "Expenses" + ":" + "Food";
  }

  /** The as-written half of PrefixAsWrittenLosesColon. */
  lemma LunchAsWritten(nodes: Nodes, r: Path, names: seq<string>)
    requires 1 <= |r| && Prefixes(r) <= nodes.Keys
    requires names == AncestorSpellings(nodes, r) && names == ["Expenses", "Food"]
    ensures PrefixAsWritten(nodes, r) == "ExpensesFood:"
  {
    assert Concat(names) == Concat(["Expenses"]) + "Food";
    assert Concat(["Expenses"]) == Concat([]) + "Expenses";
    assert PrefixAsWritten(nodes, r) == Concat(names) + ":";
  }

  /** find_original_prefix: the canonical components of the account, then the walk. */
  method FindOriginalPrefix(tree: AccountTree, s: string) returns (r: Result<string>)
    ensures r == OriginalPrefix(tree.nodes, s)
  {
    r := PrefixWalk(tree.nodes, Regular(s), s);
  }

  /** The walk of find_original_prefix from the top-level account down, adding the
      spelling of each node above the account and a colon after it; a missing node stops it. */
  method PrefixWalk(nodes: Nodes, components: Path, s: string) returns (r: Result<string>)
    requires 1 <= |components|
    ensures r == if Prefixes(components) <= nodes.Keys then Ok(PrefixFixed(nodes, components)) else Err(AccountNotFound(s))
  {
    if components[..1] !in nodes {
      PrefixesMissing(components, nodes.Keys, 1);
      return Err(AccountNotFound(s));
    }
    var result := "";
    var k := 1;
    while k < |components|
      invariant 1 <= k <= |components|
      invariant forall j :: 1 <= j <= k ==> components[..j] in nodes
      invariant result == if k == 1 then "" else Join(SpellingsUpTo(nodes, components, k - 1), ":") + ":"
    {
      ghost var before := SpellingsUpTo(nodes, components, k - 1);
      result := result + nodes[components[..k]].name + ":";
      assert SpellingsUpTo(nodes, components, k) == before + [nodes[components[..k]].name];
      if k > 1 {
        JoinSnoc(before, nodes[components[..k]].name, ":");
      }
      if components[..k + 1] !in nodes {
        PrefixesMissing(components, nodes.Keys, k + 1);
        return Err(AccountNotFound(s));
      }
      k := k + 1;
    }
    PrefixesPresent(components, nodes.Keys);
    assert SpellingsUpTo(nodes, components, k - 1) == AncestorSpellings(nodes, components);
    r := Ok(result);
  }

  // ---------------------------------------------------------------------------------------
  // single_unit_balances_helper

  /** Org-mode stars: one more than the depth, or none. */
  function Stars(depth: nat, orgMode: bool): string {
    if orgMode then seq(depth + 1, _ => '*') else ""
  }

  /** The balance rows of the entries: every entry's balances are formatted, in order, the
      first that cannot be failing the whole; each shown entry gives the row of its stars,
      its amount and its indented text. */
  function BalanceRows(nodes: Nodes, es: seq<Entry>, orgMode: bool): Result<seq<seq<string>>>
    requires forall i :: 0 <= i < |es| ==> es[i].path in nodes
    decreases |es|
  {
    if es == [] then Ok([])
    else
      var e := es[|es| - 1];
      var rows :- BalanceRows(nodes, es[..|es| - 1], orgMode);
      var amount :- FormatNilOrSingleUnitAmount(nodes[e.path].balances);
      if e.shown then Ok(rows + [[Stars(e.depth, orgMode), amount, Spaces(2 * e.depth) + e.text]]) else Ok(rows)
  }

  /** The rows for one named account: it is looked up, given its original prefix, and
      walked as the only node of its table. */
  function NamedStep(nodes: Nodes, name: string, orgMode: bool): (r: Result<seq<seq<string>>>)
    ensures FindAccount(nodes, name).Err? ==> r == Err(AccountNotFound(name))
    ensures r.Ok? ==> FindAccount(nodes, name).Ok?
    ensures r.Ok? ==> forall k :: 0 <= k < |r.value| ==> |r.value[k]| == 3
    ensures r.Ok? ==>
              var leaf := FindAccount(nodes, name).value;
              && leaf in nodes && 1 <= |leaf| && Prefixes(leaf) <= nodes.Keys
              && r == BalanceRows(nodes, WalkNode(nodes, leaf, PrefixFixed(nodes, leaf), 0), orgMode)
  {
    var leaf :- FindAccount(nodes, name);
    assert leaf[..|leaf|] == leaf && leaf in Prefixes(leaf);
    // find_original_prefix walks the path find_account has already found
    var prefix := PrefixFixed(nodes, leaf);
    var r := BalanceRows(nodes, WalkNode(nodes, leaf, prefix, 0), orgMode);
    if r.Ok? then BalanceRowsMeaning(nodes, WalkNode(nodes, leaf, prefix, 0), orgMode); r else r
  }

  /** The rows for named accounts, one account after another. */
  function NamedRows(nodes: Nodes, names: seq<string>, orgMode: bool): Result<seq<seq<string>>>
    decreases |names|
  {
    if names == [] then Ok([])
    else
      AppendRows(NamedRows(nodes, names[..|names| - 1], orgMode), NamedStep(nodes, names[|names| - 1], orgMode))
  }

  /** Two results of rows in sequence: the first error, else the rows of both. */
  function AppendRows(x: Result<seq<seq<string>>>, y: Result<seq<seq<string>>>): Result<seq<seq<string>>> {
    if x.Err? then x else if y.Err? then y else Ok(x.value + y.value)
  }

  /** Sequencing results of rows is associative. */
  lemma AppendRowsAssoc(x: Result<seq<seq<string>>>, y: Result<seq<seq<string>>>, z: Result<seq<seq<string>>>)
    ensures AppendRows(AppendRows(x, y), z) == AppendRows(x, AppendRows(y, z))
  {
    if x.Ok? && y.Ok? && z.Ok? {
      assert (x.value + y.value) + z.value == x.value + (y.value + z.value);
    }
  }

  /** single_unit_balances_helper from the top: every account when no names are given,
      otherwise the named ones. */
  function SingleUnitBalances(nodes: Nodes, names: seq<string>, orgMode: bool): Result<seq<seq<string>>> {
    if names == [] then BalanceRows(nodes, Walk(nodes, [], "", 0), orgMode)
    else NamedRows(nodes, names, orgMode)
  }

  /** One step of the rows: they exist iff those of all entries but the last do and the
      last entry's balances can be formatted. */
  lemma BalanceRowsStep(nodes: Nodes, es: seq<Entry>, orgMode: bool)
    requires forall i :: 0 <= i < |es| ==> es[i].path in nodes
    requires es != []
    ensures BalanceRows(nodes, es, orgMode).Ok? <==>
              BalanceRows(nodes, es[..|es| - 1], orgMode).Ok? && FormatNilOrSingleUnitAmount(nodes[es[|es| - 1].path].balances).Ok?
  {
  }

  /** One entry, shown or collapsed, whose balances cannot be formatted makes the rows an error. */
  lemma {:induction false} BalanceRowsFail(nodes: Nodes, es: seq<Entry>, orgMode: bool, i: nat)
    requires forall i :: 0 <= i < |es| ==> es[i].path in nodes
    requires i < |es| && FormatNilOrSingleUnitAmount(nodes[es[i].path].balances).Err?
    ensures BalanceRows(nodes, es, orgMode).Err?
    decreases |es|
  {
    var n := |es| - 1;
    BalanceRowsStep(nodes, es, orgMode);
    if i < n {
      assert es[..n][i] == es[i];
      BalanceRowsFail(nodes, es[..n], orgMode, i);
      assert BalanceRows(nodes, es[..n], orgMode).Err?;
    } else {
      assert es[n] == es[i];
    }
  }

  /** Rows exist when every entry's balances can be formatted. */
  lemma {:induction false} BalanceRowsExist(nodes: Nodes, es: seq<Entry>, orgMode: bool)
    requires forall i :: 0 <= i < |es| ==> es[i].path in nodes
    requires forall i :: 0 <= i < |es| ==> FormatNilOrSingleUnitAmount(nodes[es[i].path].balances).Ok?
    ensures BalanceRows(nodes, es, orgMode).Ok?
    decreases |es|
  {
    if es != [] {
      var n := |es| - 1;
      assert forall i :: 0 <= i < n ==> es[..n][i] == es[i];
      BalanceRowsExist(nodes, es[..n], orgMode);
      BalanceRowsStep(nodes, es, orgMode);
    }
  }

  /** The rows fail exactly when some entry, shown or collapsed, has balances that are
      neither empty nor one amount in AUD. */
  lemma BalanceRowsOk(nodes: Nodes, es: seq<Entry>, orgMode: bool)
    requires forall i :: 0 <= i < |es| ==> es[i].path in nodes
    ensures BalanceRows(nodes, es, orgMode).Ok? <==>
              forall i :: 0 <= i < |es| ==> FormatNilOrSingleUnitAmount(nodes[es[i].path].balances).Ok?
  {
    forall i | 0 <= i < |es| && FormatNilOrSingleUnitAmount(nodes[es[i].path].balances).Err?
      ensures BalanceRows(nodes, es, orgMode).Err?
    {
      BalanceRowsFail(nodes, es, orgMode, i);
    }
    if forall i :: 0 <= i < |es| ==> FormatNilOrSingleUnitAmount(nodes[es[i].path].balances).Ok? {
      BalanceRowsExist(nodes, es, orgMode);
    }
  }

  /** The row of a shown entry: its stars, its formatted balance and its text indented by
      two spaces per level. */
  function BalanceRow(nodes: Nodes, e: Entry, orgMode: bool): seq<string>
    requires e.path in nodes && FormatNilOrSingleUnitAmount(nodes[e.path].balances).Ok?
  {
    [Stars(e.depth, orgMode), FormatNilOrSingleUnitAmount(nodes[e.path].balances).value, Spaces(2 * e.depth) + e.text]
  }

  /** Otherwise there is one row per shown entry, and the k-th row is the row of the k-th
      shown entry. */
  lemma {:induction false} BalanceRowsMeaning(nodes: Nodes, es: seq<Entry>, orgMode: bool)
    requires forall i :: 0 <= i < |es| ==> es[i].path in nodes
    requires BalanceRows(nodes, es, orgMode).Ok?
    ensures |BalanceRows(nodes, es, orgMode).value| == ShownCount(es) == |ShownEntries(es)|
    ensures forall k :: 0 <= k < |BalanceRows(nodes, es, orgMode).value| ==> |BalanceRows(nodes, es, orgMode).value[k]| == 3
    ensures forall k :: 0 <= k < |ShownEntries(es)| ==>
              && ShownEntries(es)[k].path in nodes
              && FormatNilOrSingleUnitAmount(nodes[ShownEntries(es)[k].path].balances).Ok?
              && BalanceRows(nodes, es, orgMode).value[k] == BalanceRow(nodes, ShownEntries(es)[k], orgMode)
    decreases |es|
  {
    if es != [] {
      var n := |es| - 1;
      assert forall i :: 0 <= i < n ==> es[..n][i] == es[i];
      BalanceRowsMeaning(nodes, es[..n], orgMode);
    }
  }

  /** When rows for named accounts are made, every name was found. */
  lemma {:induction false} NamedRowsFound(nodes: Nodes, names: seq<string>, orgMode: bool, i: nat)
    requires NamedRows(nodes, names, orgMode).Ok? && i < |names|
    ensures NamedStep(nodes, names[i], orgMode).Ok?
    decreases |names|
  {
    var n := |names| - 1;
    var init := names[..n];
    var rows := NamedRows(nodes, init, orgMode);
    var more := NamedStep(nodes, names[n], orgMode);
    assert NamedRows(nodes, names, orgMode) == if rows.Err? then rows else if more.Err? then more else Ok(rows.value + more.value);
    assert rows.Ok? && more.Ok?;
    if i != n {
      NamedRowsFound(nodes, init, orgMode, i);
      assert init[i] == names[i];
    }
  }

  /** The rows of `step` for each name, one name after another: the loop of
      single_unit_balances over the named accounts, for any step. */
  function RowsFor(step: string -> Result<seq<seq<string>>>, names: seq<string>): Result<seq<seq<string>>>
    decreases |names|
  {
    if names == [] then Ok([]) else AppendRows(RowsFor(step, names[..|names| - 1]), step(names[|names| - 1]))
  }

  /** The rows for two lists of names are those of the first followed by those of the second,
      and the first error is the result when there is one. */
  lemma {:induction false} RowsForAppend(step: string -> Result<seq<seq<string>>>, a: seq<string>, b: seq<string>)
    ensures RowsFor(step, a + b) == AppendRows(RowsFor(step, a), RowsFor(step, b))
    decreases |b|
  {
    if b == [] {
      assert a + b == a;
      if RowsFor(step, a).Ok? {
        assert RowsFor(step, a).value + [] == RowsFor(step, a).value;
      }
    } else {
      var n := |b| - 1;
      assert (a + b)[..|a + b| - 1] == a + b[..n] && (a + b)[|a + b| - 1] == b[n];
      RowsForAppend(step, a, b[..n]);
      AppendRowsAssoc(RowsFor(step, a), RowsFor(step, b[..n]), step(b[n]));
    }
  }

  /** NamedRows is RowsFor with NamedStep as its step. */
  lemma {:induction false} NamedRowsFor(nodes: Nodes, names: seq<string>, orgMode: bool, step: string -> Result<seq<seq<string>>>)
    requires forall name :: step(name) == NamedStep(nodes, name, orgMode)
    ensures NamedRows(nodes, names, orgMode) == RowsFor(step, names)
    decreases |names|
  {
    if names != [] {
      NamedRowsFor(nodes, names[..|names| - 1], orgMode, step);
    }
  }

  /** The rows for two lists of named accounts are those of the first followed by those of
      the second, and the first error met, in the order of the names, is the result when
      there is one; with one name they are the rows of NamedStep. */
  lemma NamedRowsAppend(nodes: Nodes, a: seq<string>, b: seq<string>, orgMode: bool)
    ensures NamedRows(nodes, a + b, orgMode) == AppendRows(NamedRows(nodes, a, orgMode), NamedRows(nodes, b, orgMode))
  {
    var step := name => NamedStep(nodes, name, orgMode);
    NamedRowsFor(nodes, a + b, orgMode, step);
    NamedRowsFor(nodes, a, orgMode, step);
    NamedRowsFor(nodes, b, orgMode, step);
    RowsForAppend(step, a, b);
  }

  /** The rows for one named account are those of NamedStep. */
  lemma NamedRowsSingle(nodes: Nodes, name: string, orgMode: bool)
    ensures NamedRows(nodes, [name], orgMode) == NamedStep(nodes, name, orgMode)
  {
    var more := NamedStep(nodes, name, orgMode);
    assert [name][..0] == [];
    if more.Ok? {
      assert [] + more.value == more.value;
    }
  }

  /** Every row for named accounts has three cells, so "LRL" can justify them. */
  lemma {:induction false} NamedRowsShape(nodes: Nodes, names: seq<string>, orgMode: bool)
    requires NamedRows(nodes, names, orgMode).Ok?
    ensures forall k :: 0 <= k < |NamedRows(nodes, names, orgMode).value| ==> |NamedRows(nodes, names, orgMode).value[k]| == 3
    decreases |names|
  {
    if names != [] {
      NamedRowsShape(nodes, names[..|names| - 1], orgMode);
    }
  }
}
