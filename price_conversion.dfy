/**
 * The per-cell price conversion of `DataCleaner.convert_prices_to_usd` (its inner
 * `convert_price`): a table-driven dispatch on a leading currency symbol, with
 * Python's `float()` on the remainder and `round(x, 2)` on the product.
 *
 * Prices are exact rationals; `float()` is modelled for plain decimal notation.
 */
module PriceConversion {
  import opened Wrappers
  import opened Tables
  import TextCleaning

  /** The exchange-rate table, in the order the source tries it: pound, euro, dollar. */
  const Rates: seq<Rate> := [Rate('\U{A3}', 1.27), Rate('\U{20AC}', 1.10), Rate('$', 1.0)]

  /** A currency symbol and the number of US dollars one unit buys. */
  datatype Rate = Rate(symbol: char, usd: real)

  // ---------------------------------------------------------------------------
  // float(): decimal notation
  // ---------------------------------------------------------------------------

  function DigitValue(c: char): nat
    requires TextCleaning.IsDigit(c)
  {
    c as int - '0' as int
  }

  function DigitChar(d: nat): (c: char)
    requires d < 10
    ensures TextCleaning.IsDigit(c) && DigitValue(c) == d
  {
    ('0' as int + d) as char
  }

  predicate AllDigits(s: string) {
    forall c :: c in s ==> TextCleaning.IsDigit(c)
  }

  /** The number a string of decimal digits denotes. */
  function DigitsValue(s: string): nat
    requires AllDigits(s)
  {
    if s == [] then 0 else DigitsValue(s[..|s| - 1]) * 10 + DigitValue(s[|s| - 1])
  }

  /** The value of the digits after a decimal point: ".25" is 0.25. */
  function FractionValue(frac: string): real
    requires AllDigits(frac)
  {
    if frac == [] then 0.0 else (DigitValue(frac[0]) as real + FractionValue(frac[1..])) / 10.0
  }

  /** The length of the leading run of digits. */
  function DigitPrefix(s: string): (n: nat)
    ensures n <= |s| && AllDigits(s[..n])
    ensures n == |s| || !TextCleaning.IsDigit(s[n])
  {
    if s != [] && TextCleaning.IsDigit(s[0]) then
      var n := 1 + DigitPrefix(s[1..]);
      assert s[..n] == [s[0]] + s[1..][..n - 1];
      n
    else 0
  }

  /** `digits`, `digits.`, `.digits` or `digits.digits`. */
  function ParseUnsigned(s: string): Option<real> {
    var n := DigitPrefix(s);
    if n == |s| then
      if n > 0 then Some(DigitsValue(s) as real) else None
    else if s[n] == '.' && AllDigits(s[n + 1..]) && (n > 0 || n + 1 < |s|) then
      var frac := s[n + 1..];
      Some(DigitsValue(s[..n]) as real + FractionValue(frac))
    else None
  }

  /** Python's `float()` on a string, for decimal notation with an optional sign. */
  function ParseFloat(s: string): Option<real> {
    var p := TextCleaning.Strip(s);
    if p != [] && (p[0] == '+' || p[0] == '-') then
      match ParseUnsigned(p[1..])
      case None => None
      case Some(v) => Some(if p[0] == '-' then -v else v)
    else ParseUnsigned(p)
  }

  // ---------------------------------------------------------------------------
  // round(x, 2)
  // ---------------------------------------------------------------------------

  /** A whole number of cents. */
  predicate IsCents(x: real) {
    (x * 100.0).Floor as real == x * 100.0
  }

  /** `round(x, 2)`: the nearest multiple of 0.01, ties to the even multiple. */
  function Round2(x: real): (r: real)
    ensures IsCents(r)
    ensures -0.005 <= r - x <= 0.005
    ensures IsCents(x) ==> r == x
  {
    var y := x * 100.0;
    var f := y.Floor;
    var d := y - f as real;
    var n := if d < 0.5 then f else if d > 0.5 then f + 1 else if f % 2 == 0 then f else f + 1;
    assert 0.0 <= d < 1.0;
    assert -0.5 <= n as real - y <= 0.5;
    var r := n as real / 100.0;
    assert r * 100.0 == n as real && (r * 100.0).Floor == n;
    r
  }

  // ---------------------------------------------------------------------------
  // convert_price
  // ---------------------------------------------------------------------------

  /** The first entry of the rate table whose symbol starts the text. */
  function SymbolRate(p: string, table: seq<Rate>): (r: Option<Rate>)
    ensures r.Some? ==> r.value in table && p != [] && p[0] == r.value.symbol
    ensures r.None? ==> p == [] || forall e :: e in table ==> e.symbol != p[0]
  {
    if table == [] then None
    else if p != [] && p[0] == table[0].symbol then Some(table[0])
    else SymbolRate(p, table[1..])
  }

  /** An amount in US dollars. */
  function AtRate(v: real, e: Rate): real {
    v * e.usd
  }

  /** A converted cell and whether it counts towards `converted_count`. */
  datatype Conversion = Conversion(cell: Cell, converted: bool)

  /**
   * `convert_price`: a missing value stays missing; a leading currency symbol
   * converts the rest at the table's rate, rounded to cents, and counts; without
   * a symbol the text is parsed as a number; whatever does not parse is returned
   * unchanged. A number is already a number.
   */
  function ConvertPrice(c: Cell): (r: Conversion)
    ensures c.Missing? ==> r == Conversion(c, false)
    ensures c.Num? ==> r == Conversion(c, false)
    ensures r.converted ==> c.Text? && r.cell.Num? && IsCents(r.cell.value)
    ensures r.converted <==> (c.Text? &&
      var p := TextCleaning.Strip(c.text);
      SymbolRate(p, Rates).Some? && ParseFloat(p[1..]).Some?)
    ensures !r.converted ==> r.cell == c || (c.Text? && r.cell.Num? && ParseFloat(c.text) == Some(r.cell.value))
    ensures c.Text? && SymbolRate(TextCleaning.Strip(c.text), Rates).None? ==>
      r == if ParseFloat(c.text).Some? then Conversion(Num(ParseFloat(c.text).value), false) else Conversion(c, false)
    ensures c.Text? && SymbolRate(TextCleaning.Strip(c.text), Rates).Some? ==>
      ParseFloat(TextCleaning.Strip(c.text)[1..]).None? ==> r == Conversion(c, false)
  {
    match c
    case Missing => Conversion(c, false)
    case Num(_) => Conversion(c, false)
    case Text(s) =>
      var p := TextCleaning.Strip(s);
      match SymbolRate(p, Rates)
      case Some(entry) =>
        (match ParseFloat(p[1..])
         case Some(v) => Conversion(Num(Round2(AtRate(v, entry))), true)
         case None => Conversion(c, false))
      case None =>
        (match ParseFloat(s)
         case Some(v) => Conversion(Num(v), false)
         case None => Conversion(c, false))
  }

  // ---------------------------------------------------------------------------
  // A price as the scraper writes it, and float() reading it back
  // ---------------------------------------------------------------------------

  /** The decimal digits of a natural number. */
  function NatDigits(n: nat): (s: string)
    ensures s != [] && AllDigits(s)
  {
    if n < 10 then [DigitChar(n)] else NatDigits(n / 10) + [DigitChar(n % 10)]
  }

  lemma {:induction false} NatDigitsValue(n: nat)
    ensures DigitsValue(NatDigits(n)) == n
  {
    if n >= 10 {
      var s := NatDigits(n);
      assert s[..|s| - 1] == NatDigits(n / 10);
      NatDigitsValue(n / 10);
    }
  }

  /** A whole number of cents written with two decimals, e.g. 5177 as "51.77". */
  function FormatCents(cents: nat): string {
    var m := cents % 100;
    NatDigits(cents / 100) + ("." + [DigitChar(m / 10), DigitChar(m % 10)])
  }

  lemma {:induction false} DigitPrefixStops(w: string, rest: string)
    requires AllDigits(w)
    requires rest != [] && !TextCleaning.IsDigit(rest[0])
    ensures DigitPrefix(w + rest) == |w|
    decreases |w|
  {
    if w != [] {
      assert (w + rest)[1..] == w[1..] + rest;
      DigitPrefixStops(w[1..], rest);
    } else {
      assert w + rest == rest;
    }
  }

  lemma {:induction false} ParseDecimalText(w: string, frac: string)
    requires w != [] && AllDigits(w) && AllDigits(frac)
    ensures ParseUnsigned(w + ("." + frac)) ==
      Some(DigitsValue(w) as real + FractionValue(frac))
  {
    var s := w + ("." + frac);
    DigitPrefixStops(w, "." + frac);
    var n := DigitPrefix(s);
    assert n == |w|;
    assert s[..n] == w;
    assert s[n + 1..] == frac;
    assert s[n] == '.';
    assert n < |s|;
    var v := DigitsValue(w) as real + FractionValue(frac);
    assert ParseUnsigned(s) == Some(v);
  }

  lemma TwoDigitsFraction(a: nat, b: nat)
    requires a < 10 && b < 10
    ensures FractionValue([DigitChar(a), DigitChar(b)]) == (10 * a + b) as real / 100.0
  {
    var frac := [DigitChar(a), DigitChar(b)];
    assert frac[1..][1..] == [];
    assert FractionValue(frac[1..]) == b as real / 10.0;
  }

  /** Without blanks or a sign, `float()` reads the text as an unsigned number. */
  lemma ParseFloatUnsigned(s: string)
    requires s != [] && TextCleaning.IsDigit(s[0])
    requires forall c :: c in s ==> !TextCleaning.IsSpace(c)
    ensures ParseFloat(s) == ParseUnsigned(s)
  {
    assert TextCleaning.Strip(s) == s;
  }

  lemma CentsSplit(cents: nat, a: nat, b: nat)
    requires a == cents % 100 / 10 && b == cents % 100 % 10
    ensures (cents / 100) as real + (10 * a + b) as real / 100.0 == cents as real / 100.0
  {
    assert cents == 100 * (cents / 100) + 10 * a + b;
  }

  lemma {:induction false} ParseCentsDigits(cents: nat)
    ensures var m := cents % 100;
      ParseUnsigned(NatDigits(cents / 100) + ("." + [DigitChar(m / 10), DigitChar(m % 10)]))
        == Some(cents as real / 100.0)
  {
    var w := NatDigits(cents / 100);
    var m := cents % 100;
    var frac := [DigitChar(m / 10), DigitChar(m % 10)];
    ParseDecimalText(w, frac);
    NatDigitsValue(cents / 100);
    TwoDigitsFraction(m / 10, m % 10);
    CentsSplit(cents, m / 10, m % 10);
  }

  /** Reading a formatted price back gives the exact amount. */
  lemma {:induction false} ParseFormattedCents(cents: nat)
    ensures ParseFloat(FormatCents(cents)) == Some(cents as real / 100.0)
  {
    var w := NatDigits(cents / 100);
    var m := cents % 100;
    var frac := [DigitChar(m / 10), DigitChar(m % 10)];
    var s := w + ("." + frac);
    assert FormatCents(cents) == s;
    assert forall c :: c in s ==> c in w || c == '.' || c in frac;
    assert s[0] == w[0] && w[0] in w;
    ParseFloatUnsigned(s);
    ParseCentsDigits(cents);
  }

  /** A formatted price holds only digits and its decimal point. */
  lemma FormatCentsChars(cents: nat)
    ensures forall c :: c in FormatCents(cents) ==> TextCleaning.IsDigit(c) || c == '.'
  {
    var m := cents % 100;
    assert FormatCents(cents) == NatDigits(cents / 100) + ("." + [DigitChar(m / 10), DigitChar(m % 10)]);
  }

  /** The symbols of the rate table differ, so each is found at its own entry. */
  lemma SymbolRateFinds(p: string, i: nat)
    requires i < |Rates| && p != [] && p[0] == Rates[i].symbol
    ensures SymbolRate(p, Rates) == Some(Rates[i])
  {
    assert Rates[1..][1..] == [Rates[2]];
  }

  /**
   * A text that, once stripped, starts with a symbol of the rate table and
   * continues with a number `float()` reads, is converted at that symbol's rate,
   * rounded to cents, and counts.
   */
  lemma ConvertSymbolPrice(s: string, e: Rate, v: real)
    requires SymbolRate(TextCleaning.Strip(s), Rates) == Some(e)
    requires ParseFloat(TextCleaning.Strip(s)[1..]) == Some(v)
    ensures ConvertPrice(Text(s)) == Conversion(Num(Round2(AtRate(v, e))), true)
  {
  }

  /** A rate-table symbol followed by a number that `float()` reads is converted at that symbol's rate. */
  lemma ConvertSymbolText(i: nat, t: string, v: real)
    requires i < |Rates|
    requires forall c :: c in t ==> TextCleaning.IsDigit(c) || c == '.'
    requires ParseFloat(t) == Some(v)
    ensures ConvertPrice(Text([Rates[i].symbol] + t)) == Conversion(Num(Round2(AtRate(v, Rates[i]))), true)
  {
    var s := [Rates[i].symbol] + t;
    SymbolPriceText(Rates[i].symbol, t);
    SymbolRateFinds(s, i);
    ConvertSymbolPrice(s, Rates[i], v);
  }

  /** A symbol followed by digits and points has no blank to strip. */
  lemma SymbolPriceText(sym: char, t: string)
    requires !TextCleaning.IsSpace(sym)
    requires forall c :: c in t ==> TextCleaning.IsDigit(c) || c == '.'
    ensures TextCleaning.Strip([sym] + t) == [sym] + t
    ensures ([sym] + t)[0] == sym && ([sym] + t)[1..] == t
  {
    assert forall c :: c in [sym] + t ==> c == sym || c in t;
  }

  /** A price written with two decimals and no symbol is read as that many dollars and does not count. */
  lemma ConvertPlainPrice(cents: nat)
    ensures ConvertPrice(Text(FormatCents(cents))) == Conversion(Num(cents as real / 100.0), false)
  {
    var s := FormatCents(cents);
    FormatCentsChars(cents);
    assert s[0] in s;
    assert TextCleaning.Strip(s) == s;
    assert SymbolRate(s, Rates).None?;
    ParseFormattedCents(cents);
  }

  /** "10.00" is a formatted price that reads back as 10. */
  lemma TenPounds()
    ensures forall c :: c in "10.00" ==> TextCleaning.IsDigit(c) || c == '.'
    ensures ParseFloat("10.00") == Some(10.0)
  {
    assert NatDigits(10) == "10";
    assert FormatCents(1000) == "10.00";
    ParseFormattedCents(1000);
  }

  /** A pound price is converted at 1.27 and rounded to cents. */
  lemma ConvertPoundPrice()
    ensures ConvertPrice(Text("\U{A3}10.00")) == Conversion(Num(12.7), true)
  {
    assert AtRate(10.0, Rates[0]) == 12.7 && Round2(12.7) == 12.7 by {
      assert IsCents(12.7);
    }
    assert [Rates[0].symbol] + "10.00" == "\U{A3}10.00";
    TenPounds();
    ConvertSymbolText(0, "10.00", 10.0);
  }
}
