/** The series loader of the dashboard (`cargar_datos` in dashboard/app.py): it takes the
    already-parsed JSON list of `{mes, kwh}` records (or the built-in sample when the data
    file is absent), resolves every `mes` to its month, sorts the rows by month and coerces
    `kwh` to a number, a non-numeric value becoming a missing one. */
module Loader {
  import opened Wrappers
  import opened Months

  /** A `kwh` value as it comes out of the JSON file; `Absent` when the record has no `kwh`
      key, which the frame fills with a missing value if another record has one. */
  datatype RawKwh = Number(x: real) | Text(s: string) | Null | Absent

  /** One element of the JSON list. */
  datatype RawRecord = RawRecord(mes: string, kwh: RawKwh)

  /** A row of the frame: the period text, the resolved month (`fecha`) and `kwh`. */
  datatype Row<K> = Row(mes: string, fecha: Month, kwh: K)

  /** A row of the loaded series, `kwh` coerced to a number or missing. */
  type Record = Row<Option<real>>

  /** The load fails as a whole when a period does not name a month, when a month lies
      outside the range of a timestamp, or when an empty list leaves the frame without its
      `mes` column. */
  datatype LoadError = MalformedPeriod(mes: string) | OutOfBounds(mes: string) | MissingColumn(name: string)

  // ---------------------------------------------------------------------------------------
  // Numeric coercion (`pd.to_numeric(..., errors="coerce")`)

  predicate AllDigits(s: string)
  {
    forall i :: 0 <= i < |s| ==> IsDigit(s[i])
  }

  /** Value of a string of decimal digits, most significant first. */
  function DigitsValue(s: string): nat
    requires AllDigits(s)
  {
    if s == [] then 0 else 10 * DigitsValue(s[..|s| - 1]) + Digit(s[|s| - 1])
  }

  function Pow10(n: nat): (p: nat)
    ensures p >= 1
  {
    if n == 0 then 1 else 10 * Pow10(n - 1)
  }

  /** Position of the first '.', or `|s|` when there is none. */
  function DotIndex(s: string): (k: nat)
    ensures k <= |s|
    ensures k < |s| ==> s[k] == '.'
    ensures forall i :: 0 <= i < k ==> s[i] != '.'
  {
    if s == [] then 0 else if s[0] == '.' then 0 else 1 + DotIndex(s[1..])
  }

  predicate IsNumeralChar(c: char)
  {
    IsDigit(c) || c == '.' || c == '+' || c == '-'
  }

  /** The number that whole digits, a point and fractional digits spell. */
  function DecimalValue(whole: string, frac: string): real
    requires AllDigits(whole) && AllDigits(frac)
  {
    DigitsValue(whole) as real + DigitsValue(frac) as real / Pow10(|frac|) as real
  }

  /** The value of a numeral split at its point into whole and fractional digits. */
  function DecimalOf(whole: string, frac: string): (r: Option<real>)
    ensures r.Some? <==> AllDigits(whole) && AllDigits(frac) && |whole| + |frac| > 0
  {
    if AllDigits(whole) && AllDigits(frac) && |whole| + |frac| > 0 then
      Some(DecimalValue(whole, frac))
    else
      None
  }

  /** Digits with at most one decimal point and at least one digit: "410", "410.2", ".5", "7.". */
  function UnsignedDecimal(s: string): (r: Option<real>)
    ensures r.Some? ==> |s| > 0 && forall i :: 0 <= i < |s| ==> IsDigit(s[i]) || s[i] == '.'
  {
    var k := DotIndex(s);
    var frac := if k < |s| then s[k + 1..] else [];
    assert forall i :: k < i < |s| ==> s[i] == frac[i - k - 1];
    DecimalOf(s[..k], frac)
  }

  /** A decimal numeral with an optional sign, as text in the JSON file. */
  function ParseDecimal(s: string): (r: Option<real>)
    ensures r.Some? ==> |s| > 0 && forall i :: 0 <= i < |s| ==> IsNumeralChar(s[i])
  {
    if |s| > 0 && (s[0] == '-' || s[0] == '+') then
      match UnsignedDecimal(s[1..])
      case None => None
      case Some(v) =>
        assert forall i :: 1 <= i < |s| ==> s[i] == s[1..][i - 1];
        Some(if s[0] == '-' then -v else v)
    else
      UnsignedDecimal(s)
  }

  /** A string of digits reads as the number it spells. */
  lemma ParseDigits(s: string)
    requires |s| > 0 && AllDigits(s)
    ensures ParseDecimal(s) == Some(DigitsValue(s) as real)
  {
    assert IsDigit(s[0]);
    UnsignedDigits(s);
  }

  lemma UnsignedDigits(s: string)
    requires |s| > 0 && AllDigits(s)
    ensures UnsignedDecimal(s) == Some(DigitsValue(s) as real)
  {
    NoDot(s);
    assert s[..|s|] == s;
    WholeNumber(s);
  }

  lemma WholeNumber(whole: string)
    requires |whole| > 0 && AllDigits(whole)
    ensures DecimalOf(whole, []) == Some(DigitsValue(whole) as real)
  {
    var frac: string := [];
    assert DigitsValue(frac) == 0 && Pow10(|frac|) == 1;
  }

  lemma {:induction false} NoDot(s: string)
    requires AllDigits(s)
    ensures DotIndex(s) == |s|
  {
    if s != [] {
      NoDot(s[1..]);
    }
  }

  /** `s` is an optional sign, whole digits, a point and fractional digits, with at least
      one digit; or, without the point, an optional sign and whole digits. */
  predicate Numeral(sign: string, whole: string, frac: string, s: string)
  {
    (sign == "" || sign == "+" || sign == "-") && AllDigits(whole) && AllDigits(frac)
    && |whole| + |frac| > 0
    && (s == sign + whole + "." + frac || (frac == [] && s == sign + whole))
  }

  ghost predicate IsNumeral(s: string)
  {
    exists sign, whole, frac :: Numeral(sign, whole, frac, s)
  }

  /** A numeral reads as the number its digits spell, negated after a '-'. */
  lemma ParseNumeral(sign: string, whole: string, frac: string, s: string)
    requires Numeral(sign, whole, frac, s)
    ensures ParseDecimal(s) == Some(if sign == "-" then -DecimalValue(whole, frac) else DecimalValue(whole, frac))
  {
    var u := Unsigned(sign, whole, frac, s);
    UnsignedNumeral(whole, frac, u);
    SignedParse(sign, u, DecimalValue(whole, frac));
  }

  /** The numeral after its sign. */
  lemma Unsigned(sign: string, whole: string, frac: string, s: string) returns (u: string)
    requires s == sign + whole + "." + frac || (frac == [] && s == sign + whole)
    ensures s == sign + u
    ensures u == whole + "." + frac || (frac == [] && u == whole)
  {
    if s == sign + whole + "." + frac {
      u := whole + "." + frac;
      assert s == sign + u;
    } else {
      u := whole;
    }
  }

  /** An optional sign in front of an unsigned numeral keeps or negates its value. */
  lemma SignedParse(sign: string, u: string, v: real)
    requires sign == "" || sign == "+" || sign == "-"
    requires UnsignedDecimal(u) == Some(v)
    ensures ParseDecimal(sign + u) == Some(if sign == "-" then -v else v)
  {
    if sign == "" {
      assert sign + u == u;
      UnsignedParse(u);
    } else {
      SignParse(sign[0], u);
      assert sign + u == [sign[0]] + u;
    }
  }

  lemma UnsignedParse(u: string)
    requires UnsignedDecimal(u).Some?
    ensures ParseDecimal(u) == UnsignedDecimal(u)
  {
    assert IsDigit(u[0]) || u[0] == '.';
  }

  lemma SignParse(c: char, u: string)
    requires c == '+' || c == '-'
    requires UnsignedDecimal(u).Some?
    ensures ParseDecimal([c] + u) == Some(if c == '-' then -UnsignedDecimal(u).value else UnsignedDecimal(u).value)
  {
    var s := [c] + u;
    assert s[0] == c && s[1..] == u;
  }

  lemma UnsignedNumeral(whole: string, frac: string, u: string)
    requires AllDigits(whole) && AllDigits(frac) && |whole| + |frac| > 0
    requires u == whole + "." + frac || (frac == [] && u == whole)
    ensures UnsignedDecimal(u) == Some(DecimalValue(whole, frac))
  {
    if u == whole + "." + frac {
      assert DotIndex("." + frac) == 0 by {
        assert ("." + frac)[0] == '.';
      }
      assert u == whole + ("." + frac);
      DotAfterDigits(whole, "." + frac);
      assert u[..|whole|] == whole && u[|whole| + 1..] == frac;
    } else {
      NoDot(whole);
      assert u[..|whole|] == whole;
    }
  }

  /** Leading digits move the first point by their length. */
  lemma {:induction false} DotAfterDigits(whole: string, rest: string)
    requires AllDigits(whole)
    ensures DotIndex(whole + rest) == |whole| + DotIndex(rest)
  {
    if whole == [] {
      assert whole + rest == rest;
    } else {
      assert (whole + rest)[0] == whole[0];
      assert (whole + rest)[1..] == whole[1..] + rest;
      DotAfterDigits(whole[1..], rest);
    }
  }

  /** Text that reads as an unsigned number splits at its first point into digit strings. */
  lemma UnsignedShape(u: string) returns (whole: string, frac: string)
    requires UnsignedDecimal(u).Some?
    ensures AllDigits(whole) && AllDigits(frac) && |whole| + |frac| > 0
    ensures u == whole + "." + frac || (frac == [] && u == whole)
  {
    var k := DotIndex(u);
    whole := u[..k];
    frac := if k < |u| then u[k + 1..] else [];
    assert UnsignedDecimal(u) == DecimalOf(whole, frac);
    if k < |u| {
      assert u == whole + "." + frac;
    } else {
      assert u == whole;
    }
  }

  /** Whatever text reads as a number is a numeral. */
  lemma NumeralOfParse(s: string)
    requires ParseDecimal(s).Some?
    ensures IsNumeral(s)
  {
    var sign, u := SplitSign(s);
    var whole, frac := UnsignedShape(u);
    Signed(sign, whole, frac, u, s);
    assert Numeral(sign, whole, frac, s);
  }

  /** Text that reads as a number is an optional sign followed by an unsigned number. */
  lemma SplitSign(s: string) returns (sign: string, u: string)
    requires ParseDecimal(s).Some?
    ensures sign == "" || sign == "+" || sign == "-"
    ensures s == sign + u && UnsignedDecimal(u).Some?
  {
    if s[0] == '-' || s[0] == '+' {
      sign, u := s[..1], s[1..];
    } else {
      sign, u := "", s;
    }
    assert s == sign + u;
  }

  /** Putting the sign back in front keeps the shape of the unsigned numeral. */
  lemma Signed(sign: string, whole: string, frac: string, u: string, s: string)
    requires s == sign + u
    requires u == whole + "." + frac || (frac == [] && u == whole)
    ensures s == sign + whole + "." + frac || (frac == [] && s == sign + whole)
  {
    if u == whole + "." + frac {
      assert s == sign + whole + "." + frac;
    }
  }

  /** Text reads as a number exactly when it is a numeral. */
  lemma NumeralIff(s: string)
    ensures ParseDecimal(s).Some? <==> IsNumeral(s)
  {
    if ParseDecimal(s).Some? {
      NumeralOfParse(s);
    }
    if IsNumeral(s) {
      var sign, whole, frac :| Numeral(sign, whole, frac, s);
      ParseNumeral(sign, whole, frac, s);
    }
  }

  /** The coercion of one `kwh` value: numbers stay, numeric text is read, the rest is missing. */
  function Coerce(k: RawKwh): (r: Option<real>)
    ensures r.None? <==> k.Null? || k.Absent? || (k.Text? && !IsNumeral(k.s))
  {
    match k
    case Number(x) => Some(x)
    case Text(s) =>
      assert ParseDecimal(s).Some? <==> IsNumeral(s) by { NumeralIff(s); }
      ParseDecimal(s)
    case Null => None
    case Absent => None
  }

  /** Text with anything but digits, a point or a sign in it coerces to missing. */
  lemma NonNumericIsMissing(s: string, i: nat)
    requires i < |s| && !IsNumeralChar(s[i])
    ensures Coerce(Text(s)) == None
  {
  }

  function CoerceRow(row: Row<RawKwh>): Record
  {
    Row(row.mes, row.fecha, Coerce(row.kwh))
  }

  function CoerceAll(rows: seq<Row<RawKwh>>): (r: seq<Record>)
    ensures |r| == |rows|
    ensures forall i :: 0 <= i < |rows| ==> r[i] == CoerceRow(rows[i])
  {
    if rows == [] then [] else [CoerceRow(rows[0])] + CoerceAll(rows[1..])
  }

  // ---------------------------------------------------------------------------------------
  // Month resolution (the `fecha` column)

  /** The rows with their months, or the first period that does not name a month. */
  function Resolve(data: seq<RawRecord>): (r: Result<seq<Row<RawKwh>>, LoadError>)
    ensures r.Success? <==> forall i :: 0 <= i < |data| ==> Parse(data[i].mes).Some?
    ensures r.Success? ==>
              |r.value| == |data| &&
              forall i :: 0 <= i < |data| ==>
                r.value[i] == Row(data[i].mes, Parse(data[i].mes).value, data[i].kwh)
    ensures r.Failure? ==>
              exists i :: 0 <= i < |data| && Parse(data[i].mes).None? &&
                          r.error == MalformedPeriod(data[i].mes) &&
                          forall j :: 0 <= j < i ==> Parse(data[j].mes).Some?
  {
    if data == [] then Success([])
    else
      var init, last := data[..|data| - 1], data[|data| - 1];
      assert forall i :: 0 <= i < |init| ==> init[i] == data[i];
      match Resolve(init)
      case Failure(e) => Failure(e)
      case Success(rows) =>
        match Parse(last.mes)
        case None => Failure(MalformedPeriod(last.mes))
        case Some(m) => Success(rows + [Row(last.mes, m, last.kwh)])
  }

  /** Once a prefix fails to resolve, the whole list fails with the same error. */
  lemma {:induction false} ResolvePrefixFailure(data: seq<RawRecord>, k: nat)
    requires k <= |data| && Resolve(data[..k]).Failure?
    ensures Resolve(data) == Resolve(data[..k])
    decreases |data| - k
  {
    if k < |data| {
      assert data[..k + 1][..k] == data[..k];
      ResolvePrefixFailure(data, k + 1);
    } else {
      assert data[..k] == data;
    }
  }

  /** A period the loader accepts: it names a month whose first day a timestamp can hold. */
  predicate Resolvable(mes: string)
  {
    Parse(mes).Some? && InTimestampRange(Parse(mes).value)
  }

  /** The conversion of the months to timestamps (`to_timestamp`): the error for the first
      row whose month a timestamp cannot hold, `None` when every month fits. */
  function RangeError<K>(rows: seq<Row<K>>): (r: Option<LoadError>)
    ensures r.None? <==> forall i :: 0 <= i < |rows| ==> InTimestampRange(rows[i].fecha)
  {
    if rows == [] then None
    else if !InTimestampRange(rows[0].fecha) then Some(OutOfBounds(rows[0].mes))
    else
      assert forall i :: 1 <= i < |rows| ==> rows[i] == rows[1..][i - 1];
      RangeError(rows[1..])
  }

  /** The error names the first row whose month does not fit. */
  lemma {:induction false} RangeErrorFirst<K>(rows: seq<Row<K>>)
    requires RangeError(rows).Some?
    ensures exists i :: 0 <= i < |rows| && !InTimestampRange(rows[i].fecha) &&
                        RangeError(rows) == Some(OutOfBounds(rows[i].mes)) &&
                        forall j :: 0 <= j < i ==> InTimestampRange(rows[j].fecha)
  {
    if InTimestampRange(rows[0].fecha) {
      RangeErrorFirst(rows[1..]);
      var i :| 0 <= i < |rows[1..]| && !InTimestampRange(rows[1..][i].fecha) &&
               RangeError(rows[1..]) == Some(OutOfBounds(rows[1..][i].mes)) &&
               forall j :: 0 <= j < i ==> InTimestampRange(rows[1..][j].fecha);
      assert forall j :: 1 <= j <= i ==> rows[j] == rows[1..][j - 1];
      assert !InTimestampRange(rows[i + 1].fecha) && RangeError(rows) == Some(OutOfBounds(rows[i + 1].mes));
    } else {
      assert !InTimestampRange(rows[0].fecha) && RangeError(rows) == Some(OutOfBounds(rows[0].mes));
    }
  }

  // ---------------------------------------------------------------------------------------
  // Sorting by month (`sort_values("fecha")`)

  predicate Sorted<K>(s: seq<Row<K>>)
  {
    forall i, j :: 0 <= i < j < |s| ==> Index(s[i].fecha) <= Index(s[j].fecha)
  }

  /** Puts `x` before the first row that is not earlier than it. */
  function Insert<K>(x: Row<K>, s: seq<Row<K>>): seq<Row<K>>
  {
    if s == [] then [x]
    else if Index(x.fecha) <= Index(s[0].fecha) then [x] + s
    else [s[0]] + Insert(x, s[1..])
  }

  /** Inserting adds exactly one copy of the row. */
  lemma {:induction false} InsertPermutation<K>(x: Row<K>, s: seq<Row<K>>)
    ensures multiset(Insert(x, s)) == multiset(s) + multiset{x}
  {
    if s != [] && Index(x.fecha) > Index(s[0].fecha) {
      InsertPermutation(x, s[1..]);
      assert s == [s[0]] + s[1..];
    }
  }

  /** Inserting into a sorted series keeps it sorted. */
  lemma {:induction false} InsertSorted<K>(x: Row<K>, s: seq<Row<K>>)
    requires Sorted(s)
    ensures Sorted(Insert(x, s))
  {
    if s == [] {
    } else if Index(x.fecha) <= Index(s[0].fecha) {
      ConsSorted(x, s);
    } else {
      InsertSorted(x, s[1..]);
      InsertAbove(x, s[1..], Index(s[0].fecha));
      ConsSorted(s[0], Insert(x, s[1..]));
    }
  }

  /** A lower bound of every month in a series and of the inserted row bounds the result. */
  lemma {:induction false} InsertAbove<K>(x: Row<K>, s: seq<Row<K>>, lo: int)
    requires lo <= Index(x.fecha)
    requires forall j :: 0 <= j < |s| ==> lo <= Index(s[j].fecha)
    ensures forall j :: 0 <= j < |Insert(x, s)| ==> lo <= Index(Insert(x, s)[j].fecha)
  {
    if s != [] && Index(x.fecha) > Index(s[0].fecha) {
      InsertAbove(x, s[1..], lo);
      var rest := Insert(x, s[1..]);
      assert Insert(x, s) == [s[0]] + rest;
    }
  }

  /** A row no later than any row of a sorted series can go in front of it. */
  lemma ConsSorted<K>(y: Row<K>, s: seq<Row<K>>)
    requires Sorted(s)
    requires forall j :: 0 <= j < |s| ==> Index(y.fecha) <= Index(s[j].fecha)
    ensures Sorted([y] + s)
  {
    var r := [y] + s;
    forall i, j | 0 <= i < j < |r| ensures Index(r[i].fecha) <= Index(r[j].fecha) {
      assert r[j] == s[j - 1];
      if i > 0 {
        assert r[i] == s[i - 1];
      }
    }
  }

  /** The frame sorted by month: a stable insertion sort. */
  function SortByDate<K(==)>(s: seq<Row<K>>): (r: seq<Row<K>>)
    ensures multiset(r) == multiset(s)
  {
    if s == [] then []
    else
      assert multiset(Insert(s[0], SortByDate(s[1..]))) == multiset(s) by {
        InsertPermutation(s[0], SortByDate(s[1..]));
        assert s == [s[0]] + s[1..];
      }
      Insert(s[0], SortByDate(s[1..]))
  }

  /** The sorted frame is in non-decreasing month order. */
  lemma {:induction false} SortSorted<K>(s: seq<Row<K>>)
    ensures Sorted(SortByDate(s))
  {
    if s != [] {
      SortSorted(s[1..]);
      InsertSorted(s[0], SortByDate(s[1..]));
    }
  }

  /** Sorting a series that is already in order leaves it as it is. */
  lemma {:induction false} SortedUnchanged<K>(s: seq<Row<K>>)
    requires Sorted(s)
    ensures SortByDate(s) == s
  {
    if s != [] {
      SortedUnchanged(s[1..]);
      assert s == [s[0]] + s[1..];
    }
  }

  /** Coercion keeps each row's month, so it commutes with inserting by month. */
  lemma {:induction false} CoerceInsert(x: Row<RawKwh>, s: seq<Row<RawKwh>>)
    ensures CoerceAll(Insert(x, s)) == Insert(CoerceRow(x), CoerceAll(s))
  {
    if s != [] {
      if Index(x.fecha) <= Index(s[0].fecha) {
        CoerceInsertFront(x, s);
      } else {
        CoerceInsert(x, s[1..]);
        CoerceInsertLater(x, s);
      }
    }
  }

  lemma CoerceInsertFront(x: Row<RawKwh>, s: seq<Row<RawKwh>>)
    requires s != [] && Index(x.fecha) <= Index(s[0].fecha)
    ensures CoerceAll(Insert(x, s)) == Insert(CoerceRow(x), CoerceAll(s))
  {
    CoerceCons(x, s);
  }

  lemma CoerceInsertLater(x: Row<RawKwh>, s: seq<Row<RawKwh>>)
    requires s != [] && Index(x.fecha) > Index(s[0].fecha)
    requires CoerceAll(Insert(x, s[1..])) == Insert(CoerceRow(x), CoerceAll(s[1..]))
    ensures CoerceAll(Insert(x, s)) == Insert(CoerceRow(x), CoerceAll(s))
  {
    assert CoerceAll(s) == [CoerceRow(s[0])] + CoerceAll(s[1..]);
    InsertAfter(CoerceRow(x), CoerceRow(s[0]), CoerceAll(s[1..]));
    CoerceCons(s[0], Insert(x, s[1..]));
  }

  lemma InsertAfter<K>(x: Row<K>, y: Row<K>, t: seq<Row<K>>)
    requires Index(x.fecha) > Index(y.fecha)
    ensures Insert(x, [y] + t) == [y] + Insert(x, t)
  {
    assert ([y] + t)[1..] == t;
  }

  lemma CoerceCons(y: Row<RawKwh>, s: seq<Row<RawKwh>>)
    ensures CoerceAll([y] + s) == [CoerceRow(y)] + CoerceAll(s)
  {
    assert ([y] + s)[1..] == s;
  }

  /** Coercing the sorted rows is sorting the coerced rows. */
  lemma {:induction false} CoerceSort(s: seq<Row<RawKwh>>)
    ensures CoerceAll(SortByDate(s)) == SortByDate(CoerceAll(s))
  {
    if s != [] {
      CoerceSort(s[1..]);
      CoerceInsert(s[0], SortByDate(s[1..]));
      assert CoerceAll(s)[1..] == CoerceAll(s[1..]);
    }
  }

  // ---------------------------------------------------------------------------------------
  // The loader

  /** The sample series used when there is no data file. */
  const SampleData: seq<RawRecord> := [
    RawRecord("2025-01", Number(410.2)),
    RawRecord("2025-02", Number(398.7)),
    RawRecord("2025-03", Number(450.1)),
    RawRecord("2025-04", Number(430.0)),
    RawRecord("2025-05", Number(470.8)),
    RawRecord("2025-06", Number(455.6))
  ]

  /** The records the loader works on: the parsed data file, `None` when the file does not
      exist, in which case the sample series. */
  function DataOf(source: Option<seq<RawRecord>>): seq<RawRecord>
  {
    if source.Some? then source.value else SampleData
  }

  /** Some record has a `kwh` key, so the frame has a `kwh` column. */
  predicate HasKwhColumn(data: seq<RawRecord>)
  {
    exists i :: 0 <= i < |data| && !data[i].kwh.Absent?
  }

  /** The loaded series: resolve every period, convert the months to timestamps, sort by
      month, coerce `kwh`. A frame built from an empty list has no columns, so looking up
      `mes` fails; a frame whose records all lack `kwh` has no such column, so looking it
      up fails once the rows are sorted. */
  function Load(source: Option<seq<RawRecord>>): (r: Result<seq<Record>, LoadError>)
    ensures DataOf(source) == [] ==> r == Failure(MissingColumn("mes"))
    ensures r.Success? ==> |r.value| == |DataOf(source)|
    ensures r.Success? ==> forall i :: 0 <= i < |r.value| ==> InTimestampRange(r.value[i].fecha)
  {
    var data := DataOf(source);
    if data == [] then Failure(MissingColumn("mes"))
    else match Resolve(data)
    case Failure(e) => Failure(e)
    case Success(rows) =>
      match RangeError(rows)
      case Some(e) => Failure(e)
      case None =>
        assert |SortByDate(rows)| == |rows| by {
          assert |multiset(SortByDate(rows))| == |multiset(rows)|;
        }
        assert RangeError(SortByDate(rows)).None? by { SortKeepsRange(rows); }
        if !HasKwhColumn(data) then Failure(MissingColumn("kwh"))
        else Success(CoerceAll(SortByDate(rows)))
  }

  /** A successful load is the resolved rows, sorted by month and coerced. */
  lemma LoadValue(source: Option<seq<RawRecord>>)
    requires Load(source).Success?
    ensures Resolve(DataOf(source)).Success?
    ensures Load(source).value == CoerceAll(SortByDate(Resolve(DataOf(source)).value))
  {
    var data := DataOf(source);
    var resolved := Resolve(data);
    if resolved.Failure? {
      assert false;
    }
  }

  /** Sorting keeps every row, so it keeps every month in range. */
  lemma SortKeepsRange<K>(rows: seq<Row<K>>)
    requires RangeError(rows).None?
    ensures RangeError(SortByDate(rows)).None?
  {
    var sorted := SortByDate(rows);
    forall i | 0 <= i < |sorted| ensures InTimestampRange(sorted[i].fecha) {
      assert sorted[i] in multiset(sorted);
      assert sorted[i] in rows;
    }
  }

  /** The `fecha` column: resolves the periods in order, stopping at the first that does
      not name a month (dashboard/app.py line 60). */
  method ResolveMonths(data: seq<RawRecord>) returns (r: Result<seq<Row<RawKwh>>, LoadError>)
    ensures r == Resolve(data)
  {
    var rows: seq<Row<RawKwh>> := [];
    for i := 0 to |data|
      invariant Resolve(data[..i]) == Success(rows)
    {
      assert data[..i + 1][..i] == data[..i] && data[..i + 1][i] == data[i];
      var m := Parse(data[i].mes);
      if m.None? {
        ResolvePrefixFailure(data, i + 1);
        return Failure(MalformedPeriod(data[i].mes));
      }
      rows := rows + [Row(data[i].mes, m.value, data[i].kwh)];
    }
    assert data[..|data|] == data;
    r := Success(rows);
  }

  /** Overwrites the `kwh` column with its numeric coercion (dashboard/app.py line 62). */
  method CoerceColumn(rows: seq<Row<RawKwh>>) returns (out: seq<Record>)
    ensures out == CoerceAll(rows)
  {
    out := [];
    for i := 0 to |rows|
      invariant |out| == i
      invariant forall j :: 0 <= j < i ==> out[j] == CoerceRow(rows[j])
    {
      out := out + [CoerceRow(rows[i])];
    }
  }

  /** `cargar_datos`: picks the data, adds the month column, sorts by it and coerces `kwh`. */
  method LoadSeries(source: Option<seq<RawRecord>>) returns (r: Result<seq<Record>, LoadError>)
    ensures r == Load(source)
  {
    var data := DataOf(source);
    if data == [] {
      return Failure(MissingColumn("mes"));
    }
    var resolved := ResolveMonths(data);
    if resolved.Failure? {
      return Failure(resolved.error);
    }
    var outOfRange := RangeError(resolved.value);
    if outOfRange.Some? {
      return Failure(outOfRange.value);
    }
    var rows := SortByDate(resolved.value);
    if !HasKwhColumn(data) {
      return Failure(MissingColumn("kwh"));
    }
    var out := CoerceColumn(rows);
    r := Success(out);
  }

  /** The load fails exactly when the list is empty, some period does not name a month or
      names one that a timestamp cannot hold, or no record has a `kwh` key. */
  lemma LoadFails(data: seq<RawRecord>)
    ensures Load(Some(data)).Failure? <==>
              data == [] || (exists i :: 0 <= i < |data| && !Resolvable(data[i].mes))
              || !HasKwhColumn(data)
  {
    if data != [] {
      var resolved := Resolve(data);
      if resolved.Failure? {
        var i :| 0 <= i < |data| && Parse(data[i].mes).None?;
        assert !Resolvable(data[i].mes);
      } else if RangeError(resolved.value).Some? {
        var i :| 0 <= i < |data| && !InTimestampRange(resolved.value[i].fecha);
        assert !Resolvable(data[i].mes);
      } else {
        forall i | 0 <= i < |data| ensures Resolvable(data[i].mes) {
          assert resolved.value[i].fecha == Parse(data[i].mes).value;
        }
      }
    }
  }

  /** The loaded series is in non-decreasing month order. */
  lemma LoadSorted(source: Option<seq<RawRecord>>)
    requires Load(source).Success?
    ensures Sorted(Load(source).value)
  {
    var data := DataOf(source);
    var sorted := SortByDate(Resolve(data).value);
    LoadValue(source);
    SortSorted(Resolve(data).value);
    CoerceKeepsOrder(sorted);
  }

  lemma CoerceKeepsOrder(rows: seq<Row<RawKwh>>)
    requires Sorted(rows)
    ensures Sorted(CoerceAll(rows))
  {
    var out := CoerceAll(rows);
    assert forall i :: 0 <= i < |out| ==> out[i].fecha == rows[i].fecha;
  }

  /** The loaded series holds the input records, each resolved and coerced, and nothing else:
      it is a rearrangement of them. */
  lemma LoadPermutation(data: seq<RawRecord>)
    requires Load(Some(data)).Success?
    ensures multiset(Load(Some(data)).value) == multiset(CoerceAll(Resolve(data).value))
  {
    LoadValue(Some(data));
    CoerceSort(Resolve(data).value);
  }

  /** No record is dropped: a record whose `kwh` is not a number is still in the series,
      with a missing value. */
  lemma LoadKeepsNonNumeric(data: seq<RawRecord>, i: nat)
    requires Load(Some(data)).Success? && i < |data| && Coerce(data[i].kwh).None?
    ensures |Load(Some(data)).value| == |data|
    ensures Row(data[i].mes, Parse(data[i].mes).value, None) in Load(Some(data)).value
  {
    var rows := Resolve(data).value;
    LoadPermutation(data);
    var expected := CoerceAll(rows);
    assert expected[i] == Row(data[i].mes, Parse(data[i].mes).value, None);
    assert expected[i] in multiset(expected);
    assert |multiset(Load(Some(data)).value)| == |multiset(expected)|;
  }

  /** The sample series, as the loader returns it. */
  const SampleSeries: seq<Record> := [
    Row("2025-01", Month(2025, 1), Some(410.2)),
    Row("2025-02", Month(2025, 2), Some(398.7)),
    Row("2025-03", Month(2025, 3), Some(450.1)),
    Row("2025-04", Month(2025, 4), Some(430.0)),
    Row("2025-05", Month(2025, 5), Some(470.8)),
    Row("2025-06", Month(2025, 6), Some(455.6))
  ]

  lemma SampleMonth(k: int)
    requires 1 <= k <= 6
    ensures Parse(['2', '0', '2', '5', '-', '0', DigitChar(k)]) == Some(Month(2025, k))
  {
    var s := ['2', '0', '2', '5', '-', '0', DigitChar(k)];
    assert Digit(s[0]) == 2 && Digit(s[1]) == 0 && Digit(s[2]) == 2 && Digit(s[3]) == 5;
    assert Digit(s[5]) == 0 && Digit(s[6]) == k;
  }

  lemma SampleParses()
    ensures forall k :: 0 <= k < 6 ==> Parse(SampleData[k].mes) == Some(Month(2025, k + 1))
  {
    forall k | 0 <= k < 6 ensures Parse(SampleData[k].mes) == Some(Month(2025, k + 1)) {
      SampleMonth(k + 1);
      assert SampleData[k].mes == ['2', '0', '2', '5', '-', '0', DigitChar(k + 1)];
    }
  }

  /** The sample periods resolve to January..June 2025, already in order. */
  lemma SampleResolved()
    ensures Resolve(SampleData).Success?
    ensures |Resolve(SampleData).value| == 6
    ensures forall i :: 0 <= i < 6 ==> Resolve(SampleData).value[i].fecha == Month(2025, i + 1)
    ensures Sorted(Resolve(SampleData).value)
  {
    SampleParses();
    var rows := Resolve(SampleData).value;
    forall i, j | 0 <= i < j < |rows| ensures Index(rows[i].fecha) <= Index(rows[j].fecha) {
      assert rows[i].fecha == Month(2025, i + 1) && rows[j].fecha == Month(2025, j + 1);
    }
  }

  lemma SampleCoerced()
    ensures Resolve(SampleData).Success?
    ensures CoerceAll(Resolve(SampleData).value) == SampleSeries
  {
    SampleResolved();
    var rows := Resolve(SampleData).value;
    var out := CoerceAll(rows);
    forall i | 0 <= i < 6 ensures out[i] == SampleSeries[i] {
      assert rows[i] == Row(SampleData[i].mes, Month(2025, i + 1), SampleData[i].kwh);
    }
  }

  /** Without a data file the loader returns exactly the six sample months of 2025. */
  lemma LoadSample()
    ensures Load(None) == Success(SampleSeries)
  {
    SampleResolved();
    var rows := Resolve(SampleData).value;
    assert RangeError(rows).None? by {
      assert forall i :: 0 <= i < |rows| ==> Index(rows[i].fecha) == 2025 * 12 + i;
    }
    assert HasKwhColumn(SampleData) by {
      assert !SampleData[0].kwh.Absent?;
    }
    SortedUnchanged(rows);
    SampleCoerced();
  }
}
