/**
 * Amount formatting of `generate_receipt`: Python's `f"${x:,.2f}"` (comma
 * between thousands, point before two decimals) followed by the chained
 * replacements that swap the two separators, giving the Latin-American
 * "$1.234.567,89". The amount is modelled as a whole number of cents; a
 * negative amount is printed with its minus sign after the "$", as Python
 * does ("$-1,234.50"). Whole cents have no negative zero, so Python's
 * "$-0.00" for a float such as -0.0 is not produced here.
 */
module AmountFormat {
  import opened Wrappers
  import opened Decimal
  import opened Strings

  /**
   * The integer part with `sep` between every group of three digits counted
   * from the right: Python's `,` format option with `sep` as the separator.
   */
  function GroupThousands(n: nat, sep: char): (s: string)
    ensures |s| >= 1
  {
    if n < 1000 then Digits(n) else GroupThousands(n / 1000, sep) + [sep] + PadDigits(n % 1000, 3)
  }

  function Abs(c: int): nat {
    if c < 0 then -c else c
  }

  /** The minus sign Python writes in front of a negative number. */
  function Sign(c: int): string {
    if c < 0 then "-" else ""
  }

  /** `f"{m / 100:,.2f}"` for a non-negative number of cents `m`. */
  function Magnitude(m: nat): string {
    GroupThousands(m / 100, ',') + "." + PadDigits(m % 100, 2)
  }

  /** `f"${cents / 100:,.2f}"`, before the separators are swapped. */
  function PythonAmount(cents: int): string {
    "$" + Sign(cents) + Magnitude(Abs(cents))
  }

  /** The separator swap for one character of a text without 'X'. */
  function SwapChar(c: char): char {
    if c == ',' then '.' else if c == '.' then ',' else c
  }

  /**
   * `.replace(",", "X").replace(".", ",").replace("X", ".")`: swaps ',' and
   * '.' through the temporary 'X', so that an 'X' already in the text also
   * ends up as '.'.
   */
  function SwapSeparators(s: string): (r: string)
    ensures |r| == |s|
    ensures forall i :: 0 <= i < |s| ==> r[i] == if s[i] == 'X' then '.' else SwapChar(s[i])
  {
    Replace(Replace(Replace(s, ',', 'X'), '.', ','), 'X', '.')
  }

  /** The amount as drawn on the receipt. */
  function FormatAmount(cents: int): string {
    SwapSeparators(PythonAmount(cents))
  }

  /** On text without 'X' the swap is its own inverse. */
  lemma SwapSeparatorsInvolution(s: string)
    requires 'X' !in s
    ensures SwapSeparators(SwapSeparators(s)) == s
  {
    var r := SwapSeparators(s);
    assert forall i :: 0 <= i < |r| ==> r[i] != 'X';
  }

  /** A grouped numeral holds only digits and the separator. */
  lemma {:induction false} GroupThousandsChars(n: nat, sep: char)
    ensures forall i :: 0 <= i < |GroupThousands(n, sep)| ==>
              IsDigit(GroupThousands(n, sep)[i]) || GroupThousands(n, sep)[i] == sep
  {
    if n >= 1000 {
      GroupThousandsChars(n / 1000, sep);
    }
  }

  /** Changing the separator character changes nothing else. */
  lemma {:induction false} GroupThousandsResep(n: nat, a: char, b: char)
    requires !IsDigit(a)
    ensures GroupThousands(n, b) == Replace(GroupThousands(n, a), a, b)
  {
    if n < 1000 {
      assert Replace(Digits(n), a, b) == Digits(n);
    } else {
      GroupThousandsResep(n / 1000, a, b);
      var p := PadDigits(n % 1000, 3);
      assert Replace(p, a, b) == p;
      var g := GroupThousands(n / 1000, a);
      assert Replace(g + [a] + p, a, b) == Replace(g, a, b) + [b] + Replace(p, a, b);
    }
  }

  /** Removing the separators leaves the plain numeral of `n`. */
  lemma {:induction false} GroupThousandsDigits(n: nat, sep: char)
    requires !IsDigit(sep)
    ensures Remove(GroupThousands(n, sep), sep) == Digits(n)
  {
    if n < 1000 {
      RemoveAbsent(Digits(n), sep);
    } else {
      var g := GroupThousands(n / 1000, sep);
      var p := PadDigits(n % 1000, 3);
      var sp: string := [sep];
      GroupThousandsDigits(n / 1000, sep);
      RemoveAppend(g + sp, p, sep);
      RemoveAppend(g, sp, sep);
      assert Remove(sp, sep) == [];
      RemoveAbsent(p, sep);
      DigitsSplit3(n);
    }
  }

  lemma DigitsShort(n: nat)
    requires n < 1000
    ensures |Digits(n)| <= 3
  {
    if n >= 10 {
      assert Digits(n) == Digits(n / 10) + [DigitChar(n % 10)];
      if n >= 100 {
        assert Digits(n / 10) == Digits(n / 100) + [DigitChar(n / 10 % 10)];
      }
    }
  }

  /**
   * Cut at its separators, a grouped numeral gives a leading group of one
   * to three digits, without a leading zero unless `n` is zero, then groups
   * of exactly three digits.
   */
  lemma {:induction false} GroupThousandsGroups(n: nat, sep: char)
    requires !IsDigit(sep)
    ensures var g := Split(GroupThousands(n, sep), sep);
            && 1 <= |g[0]| <= 3 && AllDigits(g[0]) && (g[0][0] == '0' ==> n == 0)
            && forall i :: 1 <= i < |g| ==> |g[i]| == 3 && AllDigits(g[i])
  {
    if n < 1000 {
      DigitsShort(n);
      SplitNoSep(Digits(n), sep);
    } else {
      GroupThousandsGroups(n / 1000, sep);
      var p := PadDigits(n % 1000, 3);
      SplitConcat(GroupThousands(n / 1000, sep), p, sep);
      SplitNoSep(p, sep);
    }
  }

  /** A grouped numeral starts with a digit. */
  lemma {:induction false} GroupThousandsLead(n: nat, sep: char)
    ensures IsDigit(GroupThousands(n, sep)[0])
  {
    if n >= 1000 {
      GroupThousandsLead(n / 1000, sep);
      var g := GroupThousands(n / 1000, sep);
      assert GroupThousands(n, sep) == g + ([sep] + PadDigits(n % 1000, 3));
    }
  }

  /**
   * The drawn amount is "$", a minus sign for a negative amount, the
   * integer part with '.' between groups of three digits, then ',' and
   * exactly two decimals.
   */
  lemma FormatAmountShape(cents: int)
    ensures FormatAmount(cents)
            == "$" + Sign(cents) + GroupThousands(Abs(cents) / 100, '.') + "," + PadDigits(Abs(cents) % 100, 2)
  {
    var m := Abs(cents);
    var g := GroupThousands(m / 100, ',');
    var p := PadDigits(m % 100, 2);
    var h := "$" + Sign(cents);
    assert PythonAmount(cents) == h + g + "." + p;
    SwapAppend(h, g);
    SwapAppend(h + g, ".");
    SwapAppend(h + g + ".", p);
    SwapPlain(h);
    SwapPlain(p);
    GroupThousandsChars(m / 100, ',');
    GroupThousandsResep(m / 100, ',', '.');
    SwapGroups(g);
    assert SwapSeparators(".") == ",";
  }

  /** The swap works character by character, so it distributes over concatenation. */
  lemma SwapAppend(a: string, b: string)
    ensures SwapSeparators(a + b) == SwapSeparators(a) + SwapSeparators(b)
  {
    var l, r := SwapSeparators(a + b), SwapSeparators(a) + SwapSeparators(b);
    forall i | 0 <= i < |l|
      ensures l[i] == r[i]
    {
      if i < |a| {
        assert (a + b)[i] == a[i];
      } else {
        assert (a + b)[i] == b[i - |a|];
      }
    }
  }

  /** Text without separators or 'X' is left alone. */
  lemma SwapPlain(s: string)
    requires forall i :: 0 <= i < |s| ==> s[i] != ',' && s[i] != '.' && s[i] != 'X'
    ensures SwapSeparators(s) == s
  {
  }

  /** On digits and ',' the swap turns every ',' into '.'. */
  lemma SwapGroups(g: string)
    requires forall i :: 0 <= i < |g| ==> IsDigit(g[i]) || g[i] == ','
    ensures SwapSeparators(g) == Replace(g, ',', '.')
  {
  }

  /** The text the bot would print contains no 'X'. */
  lemma PythonAmountNoX(cents: int)
    ensures 'X' !in PythonAmount(cents)
  {
    var m := Abs(cents);
    var g := GroupThousands(m / 100, ',');
    var p := PadDigits(m % 100, 2);
    var h := "$" + Sign(cents);
    var x := PythonAmount(cents);
    GroupThousandsChars(m / 100, ',');
    assert x == h + g + "." + p;
    forall i | 0 <= i < |x|
      ensures x[i] != 'X'
    {
      if |h| <= i < |h| + |g| {
        assert x[i] == g[i - |h|];
      } else if i > |h| + |g| {
        assert x[i] == p[i - |h| - |g| - 1];
      }
    }
  }

  /**
   * Reads an amount in Python's form ("$1,234.50", "$-0.75") back into
   * cents: "$", an optional minus sign, digits with ',' between groups, '.'
   * and exactly two decimals.
   */
  function ReadAmount(s: string): (r: Option<int>)
    ensures r.Some? ==> |s| >= 5 && s[0] == '$'
  {
    if |s| < 1 || s[0] != '$' then None
    else
      var neg := |s| >= 2 && s[1] == '-';
      match ReadMagnitude(if neg then s[2..] else s[1..])
      case None => None
      case Some(m) => Some(if neg then -(m as int) else m as int)
  }

  /** Reads "1,234.50" back into a number of cents. */
  function ReadMagnitude(s: string): (r: Option<nat>)
    ensures r.Some? ==> |s| >= 4 && IsDigit(s[0])
  {
    if |s| < 4 || s[|s| - 3] != '.' || !AllDigits(s[|s| - 2..]) || !IsDigit(s[0]) then
      None
    else
      var whole := Remove(s[..|s| - 3], ',');
      if whole == [] || !AllDigits(whole) then None
      else Some(Value(whole) * 100 + Value(s[|s| - 2..]))
  }

  lemma ReadMagnitudeParts(g: string, p: string)
    requires |p| == 2 && AllDigits(p) && g != [] && IsDigit(g[0])
    requires Remove(g, ',') != [] && AllDigits(Remove(g, ','))
    ensures ReadMagnitude(g + "." + p) == Some(Value(Remove(g, ',')) * 100 + Value(p))
  {
    var x := g + "." + p;
    assert x[|x| - 2..] == p;
    assert x[..|x| - 3] == g;
    assert x[0] == g[0];
  }

  /** Python's text of a non-negative amount reads back as that amount. */
  lemma ReadMagnitudeRoundTrip(m: nat)
    ensures ReadMagnitude(Magnitude(m)) == Some(m)
  {
    var q, r := m / 100, m % 100;
    var g := GroupThousands(q, ',');
    var p := PadDigits(r, 2);
    assert Magnitude(m) == g + "." + p;
    GroupThousandsDigits(q, ',');
    GroupThousandsLead(q, ',');
    var whole := Remove(g, ',');
    assert whole == Digits(q) && Value(whole) == q;
    PadDigits2(r);
    ReadMagnitudeParts(g, p);
    assert ReadMagnitude(Magnitude(m)) == Some(q * 100 + r);
  }

  /** Python's text of an amount reads back as that amount, sign included. */
  lemma ReadPythonAmount(cents: int)
    ensures ReadAmount(PythonAmount(cents)) == Some(cents)
  {
    var m := Abs(cents);
    var x := PythonAmount(cents);
    ReadMagnitudeRoundTrip(m);
    var t := Magnitude(m);
    if cents < 0 {
      assert x == "$-" + t && x[1] == '-' && x[2..] == t;
    } else {
      assert x == "$" + t && x[1..] == t;
      assert x[1] == t[0];
    }
  }

  /**
   * Swapping the separators of a drawn amount back and reading it gives
   * the amount in cents.
   */
  lemma AmountRoundTrip(cents: int)
    ensures ReadAmount(SwapSeparators(FormatAmount(cents))) == Some(cents)
  {
    PythonAmountNoX(cents);
    SwapSeparatorsInvolution(PythonAmount(cents));
    ReadPythonAmount(cents);
  }
}
