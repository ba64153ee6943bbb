/**
 * The loader: turns the table read from the file into the canonical table
 * every view reads. In order: clean the price and service-fee text into
 * numbers, default the review counts to 0, drop the licence, create the
 * optional columns that are absent, fill missing policy and flag cells with
 * "Unknown", drop exact duplicate rows, and keep the rows whose minimum
 * nights lie between 1 and the 0.99 quantile of the deduplicated table.
 */
module Cleaning {
  import opened Wrappers
  import opened Tables
  import opened Listings

  /** Column names as they appear in a load error. */
  const PriceColumn: string := "price"
  const ServiceFeeColumn: string := "service fee"

  /** Converting an amount column to numbers failed on `text`: the load aborts. */
  datatype LoadError = UnparsableAmount(column: string, text: string)

  // ---------------------------------------------------------------------------
  // Currency text

  /** A character the loader removes from an amount. */
  predicate IsCurrencyMark(c: char)
  {
    c == '$' || c == ','
  }

  predicate IsKept(c: char)
  {
    !IsCurrencyMark(c)
  }

  /** The amount text with every `$` and `,` removed. */
  function StripCurrency(s: string): (r: string)
    ensures forall i :: 0 <= i < |r| ==> !IsCurrencyMark(r[i])
  {
    FilterSatisfies(s, IsKept);
    Filter(s, IsKept)
  }

  /** Every character other than a mark keeps its number of occurrences and its order. */
  lemma StripCurrencyKeepsOthers(s: string)
    ensures forall c :: IsKept(c) ==> multiset(StripCurrency(s))[c] == multiset(s)[c]
    ensures Subsequence(StripCurrency(s), s)
  {
    FilterCount(s, IsKept);
    FilterIsSubsequence(s, IsKept);
  }

  /** Removing the marks of a concatenation removes them piece by piece. */
  lemma StripCurrencyAppend(a: string, b: string)
    ensures StripCurrency(a + b) == StripCurrency(a) + StripCurrency(b)
  {
    FilterAppend(a, b, IsKept);
  }

  /** Removing the marks twice is removing them once. */
  lemma StripCurrencyIdempotent(s: string)
    ensures StripCurrency(StripCurrency(s)) == StripCurrency(s)
  {
    FilterIdempotent(s, IsKept);
  }

  lemma StripCurrencyOfChar(c: char)
    ensures StripCurrency([c]) == if IsKept(c) then [c] else []
  {
    assert [c][..0] == [];
  }

  /** Text without marks is left as it is. */
  lemma StripCurrencyOfPlain(s: string)
    requires forall i :: 0 <= i < |s| ==> !IsCurrencyMark(s[i])
    ensures StripCurrency(s) == s
  {
    FilterKeepsAll(s, IsKept);
  }

  // ---------------------------------------------------------------------------
  // Reading a number the way Python's float() reads a string

  predicate IsDigit(c: char)
  {
    '0' <= c <= '9'
  }

  predicate AllDigits(s: string)
  {
    forall i :: 0 <= i < |s| ==> IsDigit(s[i])
  }

  predicate HasDigit(s: string)
  {
    exists i :: 0 <= i < |s| && IsDigit(s[i])
  }

  /** The whitespace float() ignores around a number. */
  predicate IsSpace(c: char)
  {
    c == ' ' || c == '\t' || c == '\n' || c == '\r' || c == '\U{000B}' || c == '\U{000C}'
  }

  /** The value of a string of decimal digits. */
  function DigitsValue(ds: string): nat
    requires AllDigits(ds)
  {
    if ds == [] then 0
    else DigitsValue(ds[..|ds| - 1]) * 10 + (ds[|ds| - 1] as int - '0' as int)
  }

  function Pow10(n: nat): (r: nat)
    ensures r > 0
  {
    if n == 0 then 1 else 10 * Pow10(n - 1)
  }

  function TrimStart(s: string): string
  {
    if s != [] && IsSpace(s[0]) then TrimStart(s[1..]) else s
  }

  function TrimEnd(s: string): string
  {
    if s != [] && IsSpace(s[|s| - 1]) then TrimEnd(s[..|s| - 1]) else s
  }

  /** The first position of `c` in `s`, if any. */
  function IndexOf(s: string, c: char): (r: Option<nat>)
    ensures r.Some? ==> r.value < |s| && s[r.value] == c && c !in s[..r.value]
    ensures r.None? ==> c !in s
  {
    if s == [] then None
    else if s[0] == c then Some(0)
    else match IndexOf(s[1..], c)
      case None => None
      case Some(k) =>
        assert s[..k + 1] == [s[0]] + s[1..][..k];
        Some(k + 1)
  }

  /** The digits before and after the point, at least one of them present. */
  function ParseParts(whole: string, fraction: string): Option<real>
  {
    if |whole| + |fraction| > 0 && AllDigits(whole) && AllDigits(fraction)
    then Some(DigitsValue(whole) as real + DigitsValue(fraction) as real / Pow10(|fraction|) as real)
    else None
  }

  /** Digits with at most one decimal point and at least one digit: `12`, `12.5`, `12.`, `.5`. */
  function ParseUnsigned(s: string): Option<real>
  {
    match IndexOf(s, '.')
    case None => ParseParts(s, [])
    case Some(k) => ParseParts(s[..k], s[k + 1..])
  }

  /** A signed decimal number with surrounding whitespace; `None` where float() would raise. */
  function ParseFloat(s: string): Option<real>
  {
    var t := TrimEnd(TrimStart(s));
    if t != [] && (t[0] == '-' || t[0] == '+') then
      match ParseUnsigned(t[1..])
      case None => None
      case Some(v) => Some(if t[0] == '-' then -v else v)
    else ParseUnsigned(t)
  }

  /**
   * One amount cell after `replace('[$,]', '')` and `astype(float)`: a missing
   * cell stays missing, text that does not read as a number is an error
   * carrying the text as `float()` saw it, with its `$` and `,` removed.
   */
  function CleanAmount(cell: Cell): (r: Result<Option<real>, string>)
    ensures r.Success? <==> cell.None? || ParseFloat(StripCurrency(cell.value)).Some?
    ensures r.Success? ==> (r.value.None? <==> cell.None?)
    ensures r.Failure? ==> cell.Some? && r.error == StripCurrency(cell.value)
  {
    match cell
    case None => Success(None)
    case Some(s) =>
      match ParseFloat(StripCurrency(s))
      case None => Failure(StripCurrency(s))
      case Some(v) => Success(Some(v))
  }

  /** Leading whitespace removed leaves a suffix of the text. */
  lemma {:induction false} TrimStartSuffix(s: string)
    ensures |TrimStart(s)| <= |s| && TrimStart(s) == s[|s| - |TrimStart(s)|..]
  {
    if s != [] && IsSpace(s[0]) {
      TrimStartSuffix(s[1..]);
    }
  }

  /** Trailing whitespace removed leaves a prefix of the text. */
  lemma {:induction false} TrimEndPrefix(s: string)
    ensures |TrimEnd(s)| <= |s| && TrimEnd(s) == s[..|TrimEnd(s)|]
  {
    if s != [] && IsSpace(s[|s| - 1]) {
      TrimEndPrefix(s[..|s| - 1]);
    }
  }

  /** An unsigned number has a digit before or after its point. */
  lemma ParseUnsignedNeedsDigit(s: string)
    ensures ParseUnsigned(s).Some? ==> HasDigit(s)
  {
    match IndexOf(s, '.')
    case None =>
    case Some(k) =>
      if ParseUnsigned(s).Some? {
        if k > 0 {
          assert IsDigit(s[..k][0]);
        } else {
          assert IsDigit(s[k + 1..][0]);
        }
      }
  }

  /** float() rejects every text without a decimal digit, such as "", "$" or "N/A". */
  lemma ParseFloatNeedsDigit(s: string)
    ensures ParseFloat(s).Some? ==> HasDigit(s)
  {
    var t := TrimEnd(TrimStart(s));
    TrimStartSuffix(s);
    TrimEndPrefix(TrimStart(s));
    assert HasDigit(t) ==> HasDigit(s) by {
      if HasDigit(t) {
        var i :| 0 <= i < |t| && IsDigit(t[i]);
        assert t[i] == s[|s| - |TrimStart(s)| + i];
      }
    }
    if t != [] && (t[0] == '-' || t[0] == '+') {
      ParseUnsignedNeedsDigit(t[1..]);
      if HasDigit(t[1..]) {
        var i :| 0 <= i < |t[1..]| && IsDigit(t[1..][i]);
        assert t[i + 1] == t[1..][i];
      }
    } else {
      ParseUnsignedNeedsDigit(t);
    }
  }

  /** An amount cell with no digit at all aborts the load, whatever marks it holds. */
  lemma CleanAmountNeedsDigit(s: string)
    ensures !HasDigit(s) ==> CleanAmount(Some(s)).Failure?
  {
    var stripped := StripCurrency(s);
    ParseFloatNeedsDigit(stripped);
    if HasDigit(stripped) {
      var i :| 0 <= i < |stripped| && IsDigit(stripped[i]);
      StripCurrencyKeepsOthers(s);
      assert stripped[i] in multiset(stripped);
      assert stripped[i] in s;
    }
  }

  /**
   * A whole amount column converted: it succeeds exactly when every cell
   * converts, and otherwise reports the first cell that does not.
   */
  function CleanAmountColumn(cells: seq<Cell>): (r: Result<seq<Option<real>>, string>)
    ensures r.Success? <==> forall i :: 0 <= i < |cells| ==> CleanAmount(cells[i]).Success?
    ensures r.Success? ==>
      |r.value| == |cells| && forall i :: 0 <= i < |cells| ==> CleanAmount(cells[i]) == Success(r.value[i])
    ensures r.Failure? ==>
      exists i :: 0 <= i < |cells| && CleanAmount(cells[i]) == Failure(r.error) &&
        forall j :: 0 <= j < i ==> CleanAmount(cells[j]).Success?
  {
    if cells == [] then Success([])
    else
      match CleanAmount(cells[0])
      case Failure(e) => Failure(e)
      case Success(v) =>
        match CleanAmountColumn(cells[1..])
        case Failure(e) =>
          ghost var i :| 0 <= i < |cells[1..]| && CleanAmount(cells[1..][i]) == Failure(e) &&
            forall j :: 0 <= j < i ==> CleanAmount(cells[1..][j]).Success?;
          assert CleanAmount(cells[i + 1]) == Failure(e);
          Failure(e)
        case Success(vs) => Success([v] + vs)
  }

  // ---------------------------------------------------------------------------
  // The currency format of the file, and reading it back

  function DigitChar(d: nat): char
    requires d < 10
  {
    ('0' as int + d) as char
  }

  /** The decimal digits of `n`, without leading zeros. */
  function Digits(n: nat): (r: string)
    ensures |r| > 0 && AllDigits(r)
  {
    if n < 10 then [DigitChar(n)] else Digits(n / 10) + [DigitChar(n % 10)]
  }

  /** Digits with a `,` before every group of three, counted from the right. */
  function Grouped(ds: string): string
  {
    if |ds| <= 3 then ds else Grouped(ds[..|ds| - 3]) + "," + ds[|ds| - 3..]
  }

  /** An amount of cents written as in the file: `$1,200.00`. */
  function FormatAmount(cents: nat): string
  {
    var c := cents % 100;
    "$" + Grouped(Digits(cents / 100)) + "." + [DigitChar(c / 10), DigitChar(c % 10)]
  }

  lemma {:induction false} DigitsValueOfDigits(n: nat)
    ensures DigitsValue(Digits(n)) == n
  {
    if n >= 10 {
      var ds := Digits(n);
      assert ds[..|ds| - 1] == Digits(n / 10);
      DigitsValueOfDigits(n / 10);
    }
  }

  lemma {:induction false} StripGrouped(ds: string)
    requires AllDigits(ds)
    ensures StripCurrency(Grouped(ds)) == ds
  {
    if |ds| <= 3 {
      StripCurrencyOfPlain(ds);
    } else {
      var head, tail := ds[..|ds| - 3], ds[|ds| - 3..];
      var g := Grouped(head);
      assert Grouped(ds) == (g + [',']) + tail;
      assert StripCurrency(g + [',']) == head by {
        assert AllDigits(head);
        StripGrouped(head);
        StripCurrencyAppend(g, [',']);
        StripCurrencyOfChar(',');
      }
      assert StripCurrency(tail) == tail by {
        StripCurrencyOfPlain(tail);
      }
      StripCurrencyAppend(g + [','], tail);
      assert ds == head + tail;
    }
  }

  lemma TrimOfDigitEnds(t: string)
    requires t != [] && IsDigit(t[0]) && IsDigit(t[|t| - 1])
    ensures TrimEnd(TrimStart(t)) == t
  {
  }

  lemma DigitsValueOfPair(a: nat, b: nat)
    requires a < 10 && b < 10
    ensures DigitsValue([DigitChar(a), DigitChar(b)]) == 10 * a + b
  {
    var ds := [DigitChar(a), DigitChar(b)];
    assert ds[..1] == [DigitChar(a)];
    assert [DigitChar(a)][..0] == [];
    assert DigitsValue([DigitChar(a)]) == a;
  }

  /** The first point after a run of digits is where the digits end. */
  lemma {:induction false} IndexOfAfterDigits(whole: string, rest: string)
    requires AllDigits(whole) && rest != [] && rest[0] == '.'
    ensures IndexOf(whole + rest, '.') == Some(|whole|)
  {
    if whole == [] {
      assert whole + rest == rest;
    } else {
      assert (whole + rest)[1..] == whole[1..] + rest;
      IndexOfAfterDigits(whole[1..], rest);
    }
  }

  /** Whole digits, a point and fraction digits are read as those two parts. */
  lemma ParseUnsignedDecimal(whole: string, fraction: string)
    requires AllDigits(whole)
    ensures ParseUnsigned(whole + ['.'] + fraction) == ParseParts(whole, fraction)
  {
    var t := whole + ['.'] + fraction;
    assert t == whole + (['.'] + fraction);
    IndexOfAfterDigits(whole, ['.'] + fraction);
    assert t[..|whole|] == whole;
    assert t[|whole| + 1..] == fraction;
  }

  lemma CentsAsReal(cents: nat)
    ensures (cents / 100) as real + (cents % 100) as real / 100.0 == cents as real / 100.0
  {
    assert cents == 100 * (cents / 100) + cents % 100;
  }

  /** A plain decimal text `digits.digits` reads, as a float, as its two parts. */
  lemma ParseFloatOfDecimal(ds: string, fraction: string)
    requires |ds| > 0 && AllDigits(ds) && |fraction| > 0 && AllDigits(fraction)
    ensures ParseFloat(ds + ['.'] + fraction) == ParseParts(ds, fraction)
  {
    var t := ds + ['.'] + fraction;
    assert IsDigit(t[0]) && IsDigit(t[|t| - 1]) by {
      assert t[0] == ds[0] && t[|t| - 1] == fraction[|fraction| - 1];
    }
    TrimOfDigitEnds(t);
    ParseUnsignedDecimal(ds, fraction);
  }

  /** The parts of whole units and two cent digits make the amount. */
  lemma PartsOfUnitsAndCents(w: nat, c: nat)
    requires c < 100
    ensures ParseParts(Digits(w), [DigitChar(c / 10), DigitChar(c % 10)]) == Some(w as real + c as real / 100.0)
  {
    var fraction := [DigitChar(c / 10), DigitChar(c % 10)];
    DigitsValueOfDigits(w);
    DigitsValueOfPair(c / 10, c % 10);
    assert |fraction| == 2;
    assert Pow10(2) == 100 by {
      assert Pow10(1) == 10;
    }
    assert 10 * (c / 10) + c % 10 == c;
  }

  /** Whole units and two cent digits read back as the amount. */
  lemma ParseUnitsAndCents(w: nat, c: nat)
    requires c < 100
    ensures ParseFloat(Digits(w) + ['.'] + [DigitChar(c / 10), DigitChar(c % 10)]) ==
      Some(w as real + c as real / 100.0)
  {
    ParseFloatOfDecimal(Digits(w), [DigitChar(c / 10), DigitChar(c % 10)]);
    PartsOfUnitsAndCents(w, c);
  }

  /** Removing the marks from four pieces of text, piece by piece. */
  lemma StripCurrencyOfFour(a: string, b: string, c: string, d: string)
    ensures StripCurrency(a + b + c + d) == StripCurrency(a) + StripCurrency(b) + StripCurrency(c) + StripCurrency(d)
  {
    StripCurrencyAppend(a + b + c, d);
    StripCurrencyAppend(a + b, c);
    StripCurrencyAppend(a, b);
  }

  /** Removing the marks from a formatted amount leaves its digits and point. */
  lemma StripFormatted(cents: nat)
    ensures StripCurrency(FormatAmount(cents)) ==
      Digits(cents / 100) + ['.'] + [DigitChar(cents % 100 / 10), DigitChar(cents % 100 % 10)]
  {
    var ds := Digits(cents / 100);
    var fraction := [DigitChar(cents % 100 / 10), DigitChar(cents % 100 % 10)];
    var g := Grouped(ds);
    assert FormatAmount(cents) == ['$'] + g + ['.'] + fraction;
    StripCurrencyOfFour(['$'], g, ['.'], fraction);
    assert StripCurrency(['$']) == [] by {
      StripCurrencyOfChar('$');
    }
    assert StripCurrency(g) == ds by {
      StripGrouped(ds);
    }
    assert StripCurrency(['.']) == ['.'] by {
      StripCurrencyOfChar('.');
    }
    assert StripCurrency(fraction) == fraction by {
      StripCurrencyOfPlain(fraction);
    }
    assert [] + ds == ds;
  }

  /** Reading back an amount written in the file's format yields that amount. */
  lemma FormattedAmountRoundTrip(cents: nat)
    ensures CleanAmount(Some(FormatAmount(cents))) == Success(Some(cents as real / 100.0))
  {
    StripFormatted(cents);
    ParseUnitsAndCents(cents / 100, cents % 100);
    CentsAsReal(cents);
  }

  /** The example of the file's format: `$1,200.00` reads as 1200. */
  lemma TwelveHundred()
    ensures CleanAmount(Some("$1,200.00")) == Success(Some(1200.0))
  {
    FormatTwelveHundred(120000);
    FormattedAmountRoundTrip(120000);
  }

  /** 120000 cents are written `$1,200.00`. */
  lemma FormatTwelveHundred(cents: nat)
    requires cents == 120000
    ensures FormatAmount(cents) == "$1,200.00"
  {
    var units := cents / 100;
    assert units == 1200 && cents % 100 == 0;
    assert Digits(units) == "1200";
    assert Grouped("1200") == "1,200" by {
      assert "1200"[..1] == "1" && "1200"[1..] == "200";
    }
  }

  // ---------------------------------------------------------------------------
  // Defaults and optional columns

  /** One row with the cell of one optional column set to `v`. */
  function WithCell(r: RawListing, col: OptionalColumn, v: Cell): (u: RawListing)
    ensures CellOf(u, col) == v
    ensures forall other :: other != col ==> CellOf(u, other) == CellOf(r, other)
    ensures SameApartFromOptional(r, u)
  {
    match col
    case CancellationPolicyColumn => r.(cancellationPolicy := v)
    case InstantBookableColumn => r.(instantBookable := v)
  }

  /** The raw row with both optional cells replaced: everything else equal. */
  predicate SameApartFromOptional(r: RawListing, u: RawListing)
  {
    u.(cancellationPolicy := r.cancellationPolicy, instantBookable := r.instantBookable) == r
  }

  /** `df[col] = 'Unknown'` on a table. */
  function AddColumn(t: RawTable, col: OptionalColumn): (u: RawTable)
    ensures u.columns == t.columns + {col}
    ensures |u.rows| == |t.rows|
    ensures forall i, c :: 0 <= i < |t.rows| ==>
      CellOf(u.rows[i], c) == if c == col then Some(Unknown) else CellOf(t.rows[i], c)
    ensures forall i :: 0 <= i < |t.rows| ==> SameApartFromOptional(t.rows[i], u.rows[i])
  {
    RawTable(t.columns + {col}, seq(|t.rows|, i requires 0 <= i < |t.rows| => WithCell(t.rows[i], col, Some(Unknown))))
  }

  /**
   * The loop over the required columns: each one absent from the table is
   * created with "Unknown" in every row; columns already present are left
   * as they are.
   */
  method EnsureRequiredColumns(t: RawTable) returns (u: RawTable)
    ensures u.columns == t.columns + {CancellationPolicyColumn, InstantBookableColumn}
    ensures |u.rows| == |t.rows|
    ensures forall i, col :: 0 <= i < |t.rows| ==>
      CellOf(u.rows[i], col) == if col in t.columns then CellOf(t.rows[i], col) else Some(Unknown)
    ensures forall i :: 0 <= i < |t.rows| ==> SameApartFromOptional(t.rows[i], u.rows[i])
  {
    u := t;
    for k := 0 to |RequiredColumns|
      invariant u.columns == t.columns + set j | 0 <= j < k :: RequiredColumns[j]
      invariant |u.rows| == |t.rows|
      invariant forall i, col :: 0 <= i < |t.rows| ==>
        CellOf(u.rows[i], col) == if col in u.columns - t.columns then Some(Unknown) else CellOf(t.rows[i], col)
      invariant forall i :: 0 <= i < |t.rows| ==> SameApartFromOptional(t.rows[i], u.rows[i])
    {
      var col := RequiredColumns[k];
      if col !in u.columns {
        ghost var prev := u;
        u := AddColumn(u, col);
        forall i, c | 0 <= i < |t.rows|
          ensures CellOf(u.rows[i], c) == if c in u.columns - t.columns then Some(Unknown) else CellOf(t.rows[i], c)
        {
          assert CellOf(prev.rows[i], c) == if c in prev.columns - t.columns then Some(Unknown) else CellOf(t.rows[i], c);
        }
        forall i | 0 <= i < |t.rows| ensures SameApartFromOptional(t.rows[i], u.rows[i]) {
          assert SameApartFromOptional(prev.rows[i], u.rows[i]);
        }
      }
    }
    assert RequiredColumns[0] == CancellationPolicyColumn && RequiredColumns[1] == InstantBookableColumn;
    assert (set j | 0 <= j < |RequiredColumns| :: RequiredColumns[j]) == {CancellationPolicyColumn, InstantBookableColumn};
    forall i, c | 0 <= i < |t.rows|
      ensures CellOf(u.rows[i], c) == if c in t.columns then CellOf(t.rows[i], c) else Some(Unknown)
    {
      assert c == CancellationPolicyColumn || c == InstantBookableColumn;
      assert c in u.columns;
      assert CellOf(u.rows[i], c) == if c in u.columns - t.columns then Some(Unknown) else CellOf(t.rows[i], c);
    }
  }

  /**
   * One row after the per-cell steps: the amounts replaced by their numbers,
   * missing review counts set to 0, the licence dropped and the missing
   * policy and flag cells filled with "Unknown".
   */
  function Canonicalize(r: RawListing, price: Option<real>, serviceFee: Option<real>): Listing
  {
    Listing(
      r.id, r.name, r.hostId, r.group, r.neighbourhood, r.country, r.roomType,
      price, serviceFee, r.minimumNights,
      r.numberOfReviews.GetOr(0), r.reviewsPerMonth.GetOr(0.0), r.lastReview,
      r.availability, r.hostListings,
      r.cancellationPolicy.GetOr(Unknown), r.instantBookable.GetOr(Unknown))
  }

  /**
   * What cleaning promises of a single row of a file with the optional
   * columns `columns`, stated field by field.
   */
  ghost predicate RowCleaned(columns: set<OptionalColumn>, r: RawListing, l: Listing)
  {
    && CleanAmount(r.price) == Success(l.price)
    && CleanAmount(r.serviceFee) == Success(l.serviceFee)
    && (r.numberOfReviews.None? ==> l.numberOfReviews == 0)
    && (r.numberOfReviews.Some? ==> l.numberOfReviews == r.numberOfReviews.value)
    && (r.reviewsPerMonth.None? ==> l.reviewsPerMonth == 0.0)
    && (r.reviewsPerMonth.Some? ==> l.reviewsPerMonth == r.reviewsPerMonth.value)
    && (CancellationPolicyColumn in columns && r.cancellationPolicy.Some? ==>
          l.cancellationPolicy == r.cancellationPolicy.value)
    && (CancellationPolicyColumn !in columns || r.cancellationPolicy.None? ==>
          l.cancellationPolicy == Unknown)
    && (InstantBookableColumn in columns && r.instantBookable.Some? ==>
          l.instantBookable == r.instantBookable.value)
    && (InstantBookableColumn !in columns || r.instantBookable.None? ==>
          l.instantBookable == Unknown)
    && l.id == r.id && l.name == r.name && l.hostId == r.hostId
    && l.group == r.group && l.neighbourhood == r.neighbourhood
    && l.country == r.country && l.roomType == r.roomType
    && l.minimumNights == r.minimumNights && l.lastReview == r.lastReview
    && l.availability == r.availability && l.hostListings == r.hostListings
  }

  /**
   * Filling the cells of a row whose optional columns were created first
   * gives the row cleaning promises.
   */
  lemma CanonicalizeCleans(columns: set<OptionalColumn>, r: RawListing, withColumns: RawListing,
                           price: Option<real>, serviceFee: Option<real>)
    requires CleanAmount(r.price) == Success(price) && CleanAmount(r.serviceFee) == Success(serviceFee)
    requires SameApartFromOptional(r, withColumns)
    requires forall col :: CellOf(withColumns, col) == (if col in columns then CellOf(r, col) else Some(Unknown))
    ensures RowCleaned(columns, r, Canonicalize(withColumns, price, serviceFee))
  {
    assert CellOf(withColumns, CancellationPolicyColumn) == withColumns.cancellationPolicy;
    assert CellOf(withColumns, InstantBookableColumn) == withColumns.instantBookable;
  }

  /** `rows` is the raw table cleaned row by row, in the same order. */
  ghost predicate TableCleaned(raw: RawTable, rows: seq<Listing>)
  {
    |rows| == |raw.rows| && forall i :: 0 <= i < |rows| ==> RowCleaned(raw.columns, raw.rows[i], rows[i])
  }

  /** Some price cell, or failing that some service-fee cell, does not read as a number. */
  ghost predicate HasUnparsableAmount(raw: RawTable)
  {
    exists i :: 0 <= i < |raw.rows| &&
      (CleanAmount(raw.rows[i].price).Failure? || CleanAmount(raw.rows[i].serviceFee).Failure?)
  }

  /** Lines 11 to 22 of the loader: everything before deduplication. */
  method CleanColumns(raw: RawTable) returns (result: Result<seq<Listing>, LoadError>)
    ensures result.Failure? <==> HasUnparsableAmount(raw)
    ensures result.Failure? && result.error.column == PriceColumn ==>
      exists i :: 0 <= i < |raw.rows| && CleanAmount(raw.rows[i].price) == Failure(result.error.text)
    ensures result.Failure? && result.error.column != PriceColumn ==>
      result.error.column == ServiceFeeColumn &&
      (forall i :: 0 <= i < |raw.rows| ==> CleanAmount(raw.rows[i].price).Success?) &&
      exists i :: 0 <= i < |raw.rows| && CleanAmount(raw.rows[i].serviceFee) == Failure(result.error.text)
    ensures result.Success? ==> TableCleaned(raw, result.value)
  {
    var priceCells := seq(|raw.rows|, i requires 0 <= i < |raw.rows| => raw.rows[i].price);
    var prices := CleanAmountColumn(priceCells);
    if prices.Failure? {
      return Failure(UnparsableAmount(PriceColumn, prices.error));
    }
    assert forall i :: 0 <= i < |raw.rows| ==> CleanAmount(raw.rows[i].price).Success? by {
      forall i | 0 <= i < |raw.rows| ensures CleanAmount(raw.rows[i].price).Success? {
        assert priceCells[i] == raw.rows[i].price;
      }
    }
    var feeCells := seq(|raw.rows|, i requires 0 <= i < |raw.rows| => raw.rows[i].serviceFee);
    var fees := CleanAmountColumn(feeCells);
    if fees.Failure? {
      return Failure(UnparsableAmount(ServiceFeeColumn, fees.error));
    }
    var t := EnsureRequiredColumns(raw);
    var rows := seq(|t.rows|, i requires 0 <= i < |t.rows| =>
      Canonicalize(t.rows[i], prices.value[i], fees.value[i]));
    forall i | 0 <= i < |rows| ensures RowCleaned(raw.columns, raw.rows[i], rows[i]) {
      CanonicalizeCleans(raw.columns, raw.rows[i], t.rows[i], prices.value[i], fees.value[i]);
    }
    result := Success(rows);
  }

  /** Minimum nights present and between 1 and `q`. */
  predicate NightsWithin(q: real, l: Listing)
  {
    l.minimumNights.Some? && 1 <= l.minimumNights.value && l.minimumNights.value as real <= q
  }

  function NightsBound(q: real): Listing -> bool
  {
    l => NightsWithin(q, l)
  }

  /**
   * The table after `drop_duplicates` and the minimum-nights bounds: no two
   * equal rows, every row within the bounds, every cleaned row within the
   * bounds kept, no other row, and the first occurrences kept in their order.
   */
  function Trimmed(cleaned: seq<Listing>, q: real): (r: seq<Listing>)
    ensures NoDuplicates(r)
    ensures forall i :: 0 <= i < |r| ==> NightsWithin(q, r[i])
    ensures forall i :: 0 <= i < |cleaned| && NightsWithin(q, cleaned[i]) ==> cleaned[i] in r
    ensures forall i :: 0 <= i < |r| ==> r[i] in cleaned
    ensures Subsequence(r, Dedup(cleaned))
  {
    var rows := Filter(Dedup(cleaned), NightsBound(q));
    FilterIsSubsequence(Dedup(cleaned), NightsBound(q));
    DedupMembers(cleaned);
    assert forall x :: x in rows <==> x in cleaned && NightsWithin(q, x) by {
      forall x ensures x in rows <==> x in cleaned && NightsWithin(q, x) {
        FilterMember(Dedup(cleaned), NightsBound(q), x);
      }
    }
    FilterDistinct(Dedup(cleaned), NightsBound(q));
    rows
  }

  /**
   * The whole loader. `q` is the 0.99 quantile of minimum
   * nights over the deduplicated table, as pandas computes it. `cleaned` is
   * the table just before deduplication.
   */
  method LoadData(raw: RawTable, q: real) returns (result: Result<seq<Listing>, LoadError>, ghost cleaned: seq<Listing>)
    ensures result.Failure? <==> HasUnparsableAmount(raw)
    ensures result.Success? ==> TableCleaned(raw, cleaned) && result.value == Trimmed(cleaned, q)
  {
    var df := CleanColumns(raw);
    if df.Failure? {
      return df, [];
    }
    cleaned := df.value;
    var rows := DropDuplicates(df.value);
    rows := Select(rows, NightsBound(q));
    result := Success(rows);
  }

  /** After loading, every row's policy and flag are "Unknown" when the file lacked that column. */
  lemma AbsentColumnBecomesUnknown(raw: RawTable, cleaned: seq<Listing>, df: seq<Listing>, q: real)
    requires TableCleaned(raw, cleaned)
    requires df == Trimmed(cleaned, q)
    ensures CancellationPolicyColumn !in raw.columns ==>
      forall i :: 0 <= i < |df| ==> df[i].cancellationPolicy == Unknown
    ensures InstantBookableColumn !in raw.columns ==>
      forall i :: 0 <= i < |df| ==> df[i].instantBookable == Unknown
  {
    DedupMembers(cleaned);
    forall i | 0 <= i < |df| ensures df[i] in cleaned {
      FilterMember(Dedup(cleaned), NightsBound(q), df[i]);
    }
  }

  /** The worked example: with q = 45, minimum nights 10 is kept and 1000 is not. */
  lemma OutlierExample(l: Listing)
    ensures l.minimumNights == Some(10) ==> NightsWithin(45.0, l)
    ensures l.minimumNights == Some(1000) ==> !NightsWithin(45.0, l)
    ensures l.minimumNights.None? ==> !NightsWithin(45.0, l)
  {
  }
}
