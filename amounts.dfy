/** Amounts: a quantity of one unit, held as a whole number of hundredths (cents),
    or the nil amount `{}` written `-` in a journal. */
module Amounts {
  import opened Text
  import opened Results
  import opened Accounts

  /** The only unit the parser produces and the formatter accepts. */
  const DefaultUnits: string := "AUD"

  /** The characters parse_amount deletes before reading the number. */
  const Decoration: set<char> := {'$', ','}

  datatype Amount = Nil | Amount(units: string, quantity: int)

  /** An account node's balances: for each unit seen, the summed quantity. */
  type Balances = map<string, int>

  predicate IsDigit(c: char) {
    '0' <= c <= '9'
  }

  predicate AllDigits(s: string) {
    forall i :: 0 <= i < |s| ==> IsDigit(s[i])
  }

  function DigitValue(c: char): nat
    requires IsDigit(c)
  {
    c as int - '0' as int
  }

  function DigitChar(d: nat): (c: char)
    requires d < 10
    ensures IsDigit(c) && DigitValue(c) == d
  {
    ('0' as int + d) as char
  }

  /** The number a string of decimal digits denotes. */
  function DigitsValue(s: string): nat
    requires AllDigits(s)
  {
    if s == [] then 0 else DigitsValue(s[..|s| - 1]) * 10 + DigitValue(s[|s| - 1])
  }

  function Pow10(n: nat): (p: nat)
    ensures p >= 1
  {
    if n == 0 then 1 else 10 * Pow10(n - 1)
  }

  lemma ShiftDigit(a: int, p: int, b: int, d: int)
    ensures (a * p + b) * 10 + d == a * (p * 10) + (b * 10 + d)
  {
  }

  lemma {:induction false} DigitsValueAppend(x: string, y: string)
    requires AllDigits(x) && AllDigits(y)
    ensures AllDigits(x + y)
    ensures DigitsValue(x + y) == DigitsValue(x) * Pow10(|y|) + DigitsValue(y)
  {
    if y == [] {
      assert x + y == x;
    } else {
      var y' := y[..|y| - 1];
      var d := DigitValue(y[|y| - 1]);
      assert (x + y)[..|x + y| - 1] == x + y';
      assert (x + y)[|x + y| - 1] == y[|y| - 1];
      DigitsValueAppend(x, y');
      assert DigitsValue(x + y) == DigitsValue(x + y') * 10 + d;
      assert DigitsValue(y) == DigitsValue(y') * 10 + d;
      assert Pow10(|y|) == Pow10(|y'|) * 10;
      ShiftDigit(DigitsValue(x), Pow10(|y'|), DigitsValue(y'), d);
    }
  }

  /** Index of the first '.', or |s| when there is none. */
  function DotIndex(s: string): (i: nat)
    ensures i <= |s|
    ensures forall j :: 0 <= j < i ==> s[j] != '.'
    ensures i < |s| ==> s[i] == '.'
  {
    if s == [] || s[0] == '.' then 0 else 1 + DotIndex(s[1..])
  }

  /** An unsigned decimal number with at most two decimals, in hundredths. */
  function UnsignedCents(body: string): Option<nat> {
    var dot := DotIndex(body);
    var whole := body[..dot];
    var fraction := if dot < |body| then body[dot + 1..] else "";
    if AllDigits(whole) && AllDigits(fraction) && |fraction| <= 2 && |whole| + |fraction| >= 1 then
      Some(DigitsValue(whole) * 100 + DigitsValue(fraction) * (if |fraction| == 1 then 10 else 1))
    else
      None
  }

  /** A decimal number with an optional sign and at most two decimals, in hundredths. */
  function ParseCents(s: string): Option<int> {
    if |s| > 0 && s[0] == '-' then
      match UnsignedCents(s[1..])
      case None => None
      case Some(cents) => Some(-(cents as int))
    else if |s| > 0 && s[0] == '+' then
      match UnsignedCents(s[1..])
      case None => None
      case Some(cents) => Some(cents)
    else
      match UnsignedCents(s)
      case None => None
      case Some(cents) => Some(cents)
  }

  /** parse_amount: `-` is the nil amount; otherwise `$` and `,` are dropped and the
      number is read in cents of the default unit. */
  function ParseAmount(s: string): (r: Result<Amount>)
    ensures s == "-" ==> r == Ok(Nil)
    ensures r.Ok? && s != "-" ==> r.value.Amount? && r.value.units == DefaultUnits
    ensures s != "-" ==> (r.Ok? <==> ParseCents(RemoveChars(s, Decoration)).Some?)
    ensures r.Err? ==> r.error == InvalidAmount(s)
  {
    if s == "-" then Ok(Nil)
    else
      match ParseCents(RemoveChars(s, Decoration))
      case None => Err(InvalidAmount(s))
      case Some(q) => Ok(Amount(DefaultUnits, q))
  }

  /** parse_amount_adjusting_sign: as parse_amount but without the `-` case, and the
      quantity multiplied by the account's sign. */
  function ParseAmountAdjustingSign(account: string, s: string): (r: Result<Amount>)
    ensures r.Ok? <==> ParseCents(RemoveChars(s, Decoration)).Some? && SignAccount(account).Ok?
    ensures r.Ok? ==> r == Ok(Amount(DefaultUnits, ParseCents(RemoveChars(s, Decoration)).value * SignAccount(account).value))
  {
    match ParseCents(RemoveChars(s, Decoration))
    case None => Err(InvalidAmount(s))
    case Some(q) =>
      var sign :- SignAccount(account);
      Ok(Amount(DefaultUnits, q * sign))
  }

  /** Decimal digits of `n`, without leading zeros. */
  function Digits(n: nat): (s: string)
    ensures AllDigits(s) && DigitsValue(s) == n
    ensures |s| >= 1
    ensures '.' !in s && ',' !in s && '$' !in s
  {
    if n < 10 then [DigitChar(n)] else Digits(n / 10) + [DigitChar(n % 10)]
  }

  /** Three digits, with leading zeros. */
  function Pad3(n: nat): (s: string)
    requires n < 1000
    ensures |s| == 3 && AllDigits(s) && DigitsValue(s) == n
  {
    var s := [DigitChar(n / 100), DigitChar(n / 10 % 10), DigitChar(n % 10)];
    assert s[..2] == [s[0], s[1]] && [s[0], s[1]][..1] == [s[0]] && [s[0]][..0] == [];
    assert DigitsValue(s) == DigitsValue([s[0], s[1]]) * 10 + n % 10;
    assert DigitsValue([s[0], s[1]]) == DigitsValue([s[0]]) * 10 + n / 10 % 10;
    assert DigitsValue([s[0]]) == n / 100;
    assert n / 10 == n / 100 * 10 + n / 10 % 10;
    s
  }

  /** Digits of `n` with a `,` between groups of three, as Python's `{:,}` writes them. */
  function Grouped(n: nat): string {
    if n < 1000 then Digits(n) else Grouped(n / 1000) + "," + Pad3(n % 1000)
  }

  /** Two digits, with a leading zero. */
  function Cents2(n: nat): (s: string)
    requires n < 100
    ensures |s| == 2 && AllDigits(s) && DigitsValue(s) == n
  {
    var s := [DigitChar(n / 10), DigitChar(n % 10)];
    assert s[..1] == [s[0]] && s[..1][..0] == [];
    assert DigitsValue([s[0]]) == n / 10;
    assert DigitsValue(s) == DigitsValue([s[0]]) * 10 + n % 10;
    s
  }

  /** A non-negative number of cents as dollars: grouped, then exactly two decimals. */
  function Dollars(cents: nat): string {
    Grouped(cents / 100) + "." + Cents2(cents % 100)
  }

  /** format_amount: `-` for nil, otherwise `$` or `-$` and the dollars; only AUD is known. */
  function FormatAmount(a: Amount): (r: Result<string>)
    ensures a.Nil? ==> r == Ok("-")
    ensures a.Amount? ==> (r.Ok? <==> a.units == DefaultUnits)
    ensures r.Ok? && a.Amount? && a.quantity >= 0 ==> StartsWith(r.value, "$")
    ensures r.Ok? && a.Amount? && a.quantity < 0 ==> StartsWith(r.value, "-$")
  {
    match a
    case Nil => Ok("-")
    case Amount(units, quantity) =>
      if units != DefaultUnits then Err(UnknownUnit(units))
      else if quantity >= 0 then Ok("$" + Dollars(quantity))
      else Ok("-$" + Dollars(-quantity))
  }

  lemma GroupedStep(n: nat)
    requires n >= 1000
    ensures RemoveChars(Grouped(n), Decoration) == RemoveChars(Grouped(n / 1000), Decoration) + Pad3(n % 1000)
  {
    var low := Pad3(n % 1000);
    assert Grouped(n) == Grouped(n / 1000) + ("," + low);
    RemoveCharsAppend(Grouped(n / 1000), "," + low, Decoration);
    RemoveCharsAppend(",", low, Decoration);
    assert RemoveChars(",", Decoration) == "";
    RemoveCharsNone(low, Decoration);
  }

  lemma {:induction false} GroupedUndecorated(n: nat)
    ensures AllDigits(RemoveChars(Grouped(n), Decoration))
    ensures DigitsValue(RemoveChars(Grouped(n), Decoration)) == n
    ensures '.' !in RemoveChars(Grouped(n), Decoration)
    ensures |RemoveChars(Grouped(n), Decoration)| >= 1
  {
    if n < 1000 {
      RemoveCharsNone(Digits(n), Decoration);
    } else {
      GroupedUndecorated(n / 1000);
      var head := RemoveChars(Grouped(n / 1000), Decoration);
      var low := Pad3(n % 1000);
      GroupedStep(n);
      DigitsValueAppend(head, low);
      assert Pow10(3) == 1000;
      assert DigitsValue(head + low) == n;
    }
  }

  lemma DollarsSplit(cents: nat)
    ensures RemoveChars(Dollars(cents), Decoration)
         == RemoveChars(Grouped(cents / 100), Decoration) + ("." + Cents2(cents % 100))
  {
    var tail := Cents2(cents % 100);
    assert Dollars(cents) == Grouped(cents / 100) + ("." + tail);
    RemoveCharsAppend(Grouped(cents / 100), "." + tail, Decoration);
    RemoveCharsNone("." + tail, Decoration);
  }

  lemma {:induction false} DotIndexAt(x: string, y: string)
    requires '.' !in x && y != [] && y[0] == '.'
    ensures DotIndex(x + y) == |x|
  {
    if x == [] {
      assert x + y == y;
    } else {
      assert (x + y)[1..] == x[1..] + y;
      DotIndexAt(x[1..], y);
    }
  }

  /** UnsignedCents on a string whose first dot is followed by exactly two digits. */
  lemma UnsignedTwoDecimals(t: string, dot: nat)
    requires DotIndex(t) == dot && dot + 3 == |t|
    requires AllDigits(t[..dot]) && AllDigits(t[dot + 1..])
    ensures UnsignedCents(t) == Some(DigitsValue(t[..dot]) * 100 + DigitsValue(t[dot + 1..]))
  {
  }

  /** How ParseCents reads digits, a dot and two digits. */
  lemma ParseCentsPlain(t: string, dot: nat)
    requires DotIndex(t) == dot && dot + 3 == |t| && dot >= 1
    requires AllDigits(t[..dot]) && AllDigits(t[dot + 1..])
    ensures ParseCents(t) == Some(DigitsValue(t[..dot]) * 100 + DigitsValue(t[dot + 1..]))
  {
    var v := DigitsValue(t[..dot]) * 100 + DigitsValue(t[dot + 1..]);
    assert UnsignedCents(t) == Some(v) by {
      UnsignedTwoDecimals(t, dot);
    }
    assert t[..dot][0] == t[0];
  }

  /** How ParseCents reads a minus, digits, a dot and two digits. */
  lemma ParseCentsMinus(t: string, dot: nat)
    requires DotIndex(t) == dot && dot + 3 == |t| && dot >= 1
    requires AllDigits(t[..dot]) && AllDigits(t[dot + 1..])
    ensures ParseCents("-" + t) == Some(-(DigitsValue(t[..dot]) * 100 + DigitsValue(t[dot + 1..])))
  {
    var v := DigitsValue(t[..dot]) * 100 + DigitsValue(t[dot + 1..]);
    assert UnsignedCents(t) == Some(v) by {
      UnsignedTwoDecimals(t, dot);
    }
    var m := "-" + t;
    assert |m| > 0 && m[0] == '-';
    assert m[1..] == t;
  }

  /** Digits, a dot and two digits: where the dot is and what lies either side of it. */
  lemma SplitAtDot(w: string, f: string)
    requires '.' !in w && |f| == 2
    ensures var t := w + ("." + f);
      DotIndex(t) == |w| && |w| + 3 == |t| && t[..|w|] == w && t[|w| + 1..] == f
  {
    DotIndexAt(w, "." + f);
    var t := w + ("." + f);
    assert t[..|w|] == w;
    assert t[|w| + 1..] == f;
  }

  lemma DollarsText(cents: nat)
    ensures var t := RemoveChars(Dollars(cents), Decoration);
      var dot := |t| - 3;
      && |t| >= 4 && DotIndex(t) == dot
      && AllDigits(t[..dot]) && DigitsValue(t[..dot]) == cents / 100
      && AllDigits(t[dot + 1..]) && DigitsValue(t[dot + 1..]) == cents % 100
  {
    var head := RemoveChars(Grouped(cents / 100), Decoration);
    var tail := Cents2(cents % 100);
    GroupedUndecorated(cents / 100);
    DollarsSplit(cents);
    SplitAtDot(head, tail);
  }

  lemma ParseDollars(cents: nat)
    ensures ParseCents(RemoveChars(Dollars(cents), Decoration)) == Some(cents)
  {
    var t := RemoveChars(Dollars(cents), Decoration);
    DollarsText(cents);
    ParseCentsPlain(t, |t| - 3);
    assert cents / 100 * 100 + cents % 100 == cents;
  }

  lemma ParseMinusDollars(cents: nat)
    ensures ParseCents("-" + RemoveChars(Dollars(cents), Decoration)) == Some(-(cents as int))
  {
    var t := RemoveChars(Dollars(cents), Decoration);
    var dot := |t| - 3;
    DollarsText(cents);
    assert DigitsValue(t[..dot]) * 100 + DigitsValue(t[dot + 1..]) == cents by {
      assert cents / 100 * 100 + cents % 100 == cents;
    }
    ParseCentsMinus(t, dot);
  }

  lemma FormatParsePositive(n: nat)
    ensures ParseAmount("$" + Dollars(n)) == Ok(Amount(DefaultUnits, n))
  {
    var s := "$" + Dollars(n);
    ParseDollars(n);
    RemoveCharsAppend("$", Dollars(n), Decoration);
    assert RemoveChars("$", Decoration) == "";
    assert RemoveChars(s, Decoration) == RemoveChars(Dollars(n), Decoration);
    assert |s| > 1;
    ParseAmountOf(s, n);
  }

  lemma FormatParseNegative(n: nat)
    ensures ParseAmount("-$" + Dollars(n)) == Ok(Amount(DefaultUnits, -(n as int)))
  {
    var s := "-$" + Dollars(n);
    ParseMinusDollars(n);
    RemoveCharsAppend("-$", Dollars(n), Decoration);
    assert RemoveChars("-$", Decoration) == "-";
    assert RemoveChars(s, Decoration) == "-" + RemoveChars(Dollars(n), Decoration);
    assert |s| > 1;
    ParseAmountOf(s, -(n as int));
  }

  /** Formatting then parsing gives the amount back, so every string format_amount writes
      is read back as the amount it came from. */
  lemma FormatParseRoundTrip(a: Amount)
    requires a.Nil? || a.units == DefaultUnits
    ensures FormatAmount(a).Ok? && ParseAmount(FormatAmount(a).value) == Ok(a)
  {
    if a.Amount? {
      if a.quantity >= 0 {
        FormatParsePositive(a.quantity);
      } else {
        FormatParseNegative(-a.quantity);
      }
    }
  }

  /** For strings written the way format_amount writes them, parse then format is the identity. */
  lemma ParseFormatRoundTrip(s: string, a: Amount)
    requires a.Nil? || a.units == DefaultUnits
    requires FormatAmount(a) == Ok(s)
    ensures ParseAmount(s).Ok? && FormatAmount(ParseAmount(s).value) == Ok(s)
  {
    FormatParseRoundTrip(a);
  }

  lemma ParseAmountOf(s: string, q: int)
    requires s != "-" && ParseCents(RemoveChars(s, Decoration)) == Some(q)
    ensures ParseAmount(s) == Ok(Amount(DefaultUnits, q))
  {
  }

  lemma UndecoratedPrefix(sign: string, t: string)
    requires sign == "$" || sign == "-$"
    requires forall i :: 0 <= i < |t| ==> t[i] !in Decoration
    ensures RemoveChars(sign + t, Decoration) == (if sign == "$" then t else "-" + t)
  {
    RemoveCharsNone(t, Decoration);
    RemoveCharsAppend(sign, t, Decoration);
    if sign == "-$" {
      assert RemoveChars(sign, Decoration) == "-";
    } else {
      assert RemoveChars(sign, Decoration) == "";
    }
  }

  /** The number in `$`, digits, a dot and two digits, once the decoration is dropped. */
  lemma ParsePositiveAmount(s: string, t: string, dot: nat)
    requires DotIndex(t) == dot && dot + 3 == |t| && dot >= 1
    requires AllDigits(t[..dot]) && AllDigits(t[dot + 1..])
    requires s == "$" + t
    ensures ParseCents(RemoveChars(s, Decoration)) == Some(DigitsValue(t[..dot]) * 100 + DigitsValue(t[dot + 1..]))
  {
    ParseCentsPlain(t, dot);
    assert forall i :: 0 <= i < |t| ==> t[i] !in Decoration by {
      forall i | 0 <= i < |t|
        ensures t[i] !in Decoration
      {
        if i < dot {
          assert t[i] == t[..dot][i];
        } else if i > dot {
          assert t[i] == t[dot + 1..][i - dot - 1];
        }
      }
    }
    UndecoratedPrefix("$", t);
  }

  /** The number in `-$`, digits, a dot and two digits, once the decoration is dropped. */
  lemma ParseNegativeAmount(s: string, t: string, dot: nat)
    requires DotIndex(t) == dot && dot + 3 == |t| && dot >= 1
    requires AllDigits(t[..dot]) && AllDigits(t[dot + 1..])
    requires s == "-$" + t
    ensures ParseCents(RemoveChars(s, Decoration)) == Some(-(DigitsValue(t[..dot]) * 100 + DigitsValue(t[dot + 1..])))
  {
    ParseCentsMinus(t, dot);
    assert forall i :: 0 <= i < |t| ==> t[i] !in Decoration by {
      forall i | 0 <= i < |t|
        ensures t[i] !in Decoration
      {
        if i < dot {
          assert t[i] == t[..dot][i];
        } else if i > dot {
          assert t[i] == t[dot + 1..][i - dot - 1];
        }
      }
    }
    UndecoratedPrefix("-$", t);
  }

  /** A negative amount as the journals write it. */
  lemma ParseNegativeExample()
    ensures ParseAmount("-$285.21") == Ok(Amount(DefaultUnits, -28521))
  {
    Digits285();
    Digits21();
    var t := "285.21";
    assert "-$" + t == "-$285.21";
    SplitAtDot("285", "21");
    assert "285" + ("." + "21") == t;
    ParseNegativeAmount("-$285.21", t, 3);
    ParseAmountOf("-$285.21", -28521);
  }

  lemma Digits285()
    ensures AllDigits("285") && DigitsValue("285") == 285
  {
    assert "285"[..2] == "28" && "28"[..1] == "2" && "2"[..0] == "";
  }

  lemma Digits21()
    ensures AllDigits("21") && DigitsValue("21") == 21
  {
    assert "21"[..1] == "2" && "2"[..0] == "";
  }

  lemma Digits2073()
    ensures AllDigits("2073") && DigitsValue("2073") == 2073
  {
    assert "2073"[..3] == "207" && "207"[..2] == "20" && "20"[..1] == "2" && "2"[..0] == "";
  }

  lemma Digits68()
    ensures AllDigits("68") && DigitsValue("68") == 68
  {
    assert "68"[..1] == "6" && "6"[..0] == "";
  }

  /** A thousands separator is dropped. */
  lemma ParseGroupedExample()
    ensures ParseAmount("$2,073.68") == Ok(Amount(DefaultUnits, 207368))
  {
    GroupedExampleUndecorated();
    GroupedExampleCents();
    ParseAmountOf("$2,073.68", 207368);
  }

  lemma GroupedExampleUndecorated()
    ensures RemoveChars("$2,073.68", Decoration) == "2073.68"
  {
    assert "$2,073.68" == "$2," + "073.68";
    RemoveCharsAppend("$2,", "073.68", Decoration);
    assert RemoveChars("$2,", Decoration) == "2";
    RemoveCharsNone("073.68", Decoration);
    assert "2" + "073.68" == "2073.68";
  }

  lemma GroupedExampleCents()
    ensures ParseCents("2073.68") == Some(207368)
  {
    var t := "2073.68";
    Digits2073();
    Digits68();
    SplitAtDot("2073", "68");
    assert "2073" + ("." + "68") == t;
    ParseCentsPlain(t, 4);
  }

  lemma {:induction false} SingleKey(balances: Balances)
    requires |balances| == 1
    ensures forall a, b :: a in balances && b in balances ==> a == b
  {
    forall a, b | a in balances && b in balances
      ensures a == b
    {
      if a != b {
        assert {a, b} <= balances.Keys;
        SubsetCardinality({a, b}, balances.Keys);
      }
    }
  }

  lemma {:induction false} SubsetCardinality<T>(small: set<T>, big: set<T>)
    requires small <= big
    ensures |small| <= |big|
    decreases |small|
  {
    if small != {} {
      var x :| x in small;
      SubsetCardinality(small - {x}, big - {x});
    }
  }

  /** extract_single_unit_amount: the one amount of a balance list with exactly one unit. */
  function ExtractSingleUnitAmount(balances: Balances): (r: Result<Amount>)
    ensures r.Ok? <==> |balances| == 1
    ensures r.Ok? ==> r.value.Amount? && r.value.units in balances
                      && r.value.quantity == balances[r.value.units]
    ensures r.Err? ==> r.error == NotSingleUnit(|balances|)
  {
    if |balances| == 1 then
      SingleKey(balances);
      var units :| units in balances;
      Ok(Amount(units, balances[units]))
    else
      Err(NotSingleUnit(|balances|))
  }

  /** extract_nil_or_single_unit_amount: as above, but no unit at all gives nil. */
  function ExtractNilOrSingleUnitAmount(balances: Balances): (r: Result<Amount>)
    ensures r.Ok? <==> |balances| <= 1
    ensures balances == map[] ==> r == Ok(Nil)
    ensures |balances| == 1 ==> r == ExtractSingleUnitAmount(balances)
    ensures r.Err? ==> r.error == NotSingleUnit(|balances|)
  {
    if |balances| == 1 then ExtractSingleUnitAmount(balances)
    else if balances == map[] then Ok(Nil)
    else Err(NotSingleUnit(|balances|))
  }

  /** format_single_unit_amount: the single amount, formatted; an error when there is not
      exactly one unit, or when that unit cannot be formatted. */
  function FormatSingleUnitAmount(balances: Balances): (r: Result<string>)
    ensures r.Ok? <==> |balances| == 1 && DefaultUnits in balances
    ensures r.Ok? ==> DefaultUnits in balances && r == FormatAmount(Amount(DefaultUnits, balances[DefaultUnits]))
    ensures |balances| != 1 ==> r == Err(NotSingleUnit(|balances|))
  {
    if |balances| == 1 then SingleKey(balances); ExtractFormat(balances) else ExtractFormat(balances)
  }

  function ExtractFormat(balances: Balances): Result<string> {
    var amount :- ExtractSingleUnitAmount(balances);
    FormatAmount(amount)
  }

  /** format_nil_or_single_unit_amount: "-" for no unit, the single amount formatted for one,
      an error for more. */
  function FormatNilOrSingleUnitAmount(balances: Balances): (r: Result<string>)
    ensures r.Ok? <==> balances == map[] || (|balances| == 1 && DefaultUnits in balances)
    ensures balances == map[] ==> r == Ok("-")
    ensures |balances| == 1 ==> r == FormatSingleUnitAmount(balances)
    ensures |balances| > 1 ==> r == Err(NotSingleUnit(|balances|))
  {
    if |balances| == 1 then FormatSingleUnitAmount(balances)
    else
      var amount :- ExtractNilOrSingleUnitAmount(balances);
      FormatAmount(amount)
  }

  /** difference_nil_or_single_unit_amount: `amount1 - amount2` in their common unit. When
      either side is nil the OTHER side is returned as it is, so `nil - x` is `x`, not `-x`. */
  function DifferenceNilOrSingleUnitAmount(amount1: Amount, amount2: Amount): (r: Result<Amount>)
    ensures amount1.Nil? ==> r == Ok(amount2)
    ensures amount1.Amount? && amount2.Nil? ==> r == Ok(amount1)
    ensures amount1.Amount? && amount2.Amount? ==> (r.Ok? <==> amount1.units == amount2.units)
    ensures r.Ok? && amount1.Amount? && amount2.Amount? ==>
              r.value.Amount? && r.value.units == amount1.units
              && r.value.quantity + amount2.quantity == amount1.quantity
  {
    if amount1.Nil? then Ok(amount2)
    else if amount2.Nil? then Ok(amount1)
    else if amount1.units != amount2.units then Err(DifferentUnits(amount1.units, amount2.units))
    else Ok(Amount(amount1.units, amount1.quantity - amount2.quantity))
  }

  /** The quirk spelled out: subtracting a non-zero amount from nil does not negate it. */
  lemma DifferenceFromNil(units: string, q: int)
    requires q != 0
    ensures DifferenceNilOrSingleUnitAmount(Nil, Amount(units, q)) == Ok(Amount(units, q))
    ensures DifferenceNilOrSingleUnitAmount(Nil, Amount(units, q)) != Ok(Amount(units, -q))
  {
  }

  /** A character format_amount can write. */
  predicate AmountChar(c: char) {
    IsDigit(c) || c == ',' || c == '.' || c == '$' || c == '-'
  }

  lemma {:induction false} GroupedChars(n: nat)
    ensures Grouped(n) != []
    ensures forall i :: 0 <= i < |Grouped(n)| ==> IsDigit(Grouped(n)[i]) || Grouped(n)[i] == ','
  {
    if n >= 1000 {
      GroupedChars(n / 1000);
      var low := Pad3(n % 1000);
      assert Grouped(n) == Grouped(n / 1000) + "," + low;
    }
  }

  /** format_amount writes a non-empty string of digits, `,`, `.`, `$` and `-` and nothing else,
      in particular no whitespace, so the string is one word of a journal line. */
  lemma FormatAmountChars(a: Amount)
    requires FormatAmount(a).Ok?
    ensures FormatAmount(a).value != []
    ensures forall i :: 0 <= i < |FormatAmount(a).value| ==> AmountChar(FormatAmount(a).value[i])
  {
    if a.Amount? {
      var n := if a.quantity >= 0 then a.quantity else -a.quantity;
      GroupedChars(n / 100);
      var d := Dollars(n);
      assert d == Grouped(n / 100) + "." + Cents2(n % 100);
      assert forall i :: 0 <= i < |d| ==> AmountChar(d[i]);
    }
  }

  /** What format_amount writes contains a `.` unless it is the nil amount's `-`. */
  lemma FormatAmountDot(a: Amount)
    requires a.Amount? && FormatAmount(a).Ok?
    ensures '.' in FormatAmount(a).value
  {
    var n := if a.quantity >= 0 then a.quantity else -a.quantity;
    var d := Dollars(n);
    assert d[|Grouped(n / 100)|] == '.';
    var prefix := if a.quantity >= 0 then "$" else "-$";
    assert FormatAmount(a).value == prefix + d;
    assert FormatAmount(a).value[|prefix| + |Grouped(n / 100)|] == '.';
  }

  /** The journal parser deletes `$` from an amount before parse_amount sees it; that loses
      nothing, so what format_amount writes is still read back as the amount it came from. */
  lemma FormatParseWithoutDollar(a: Amount)
    requires a.Nil? || a.units == DefaultUnits
    ensures FormatAmount(a).Ok? && ParseAmount(RemoveChars(FormatAmount(a).value, {'$'})) == Ok(a)
  {
    FormatParseRoundTrip(a);
    var f := FormatAmount(a).value;
    var g := RemoveChars(f, {'$'});
    if a.Nil? {
      assert f == "-";
      assert g == "-";
    } else {
      FormatAmountDot(a);
      RemoveCharsKeeps(f, {'$'}, '.');
      assert g != "-";
      RemoveCharsTwice(f, {'$'}, Decoration);
      ParseAmountOf(g, a.quantity);
    }
  }
}
