/** The record-cleaning pipeline `load_and_process_data` (src/main.py):
    one table is changed step by step, in place. Reading and writing the
    file are outside the model: the file's rows are an input, whether the
    input file exists and whether the save succeeds are booleans, and the
    date parser (pandas' `to_datetime`) is a function parameter. */
module Processing {
  import opened Wrappers
  import opened Records

  /** The value that replaces a missing transaction type. */
  const DefaultTransactionType: string := "Credit Card"

  /** The processor's only failure: the input file is absent. */
  datatype LoadError = InputFileNotFound

  type DateParser = string -> Option<Timestamp>

  // ---------------------------------------------------------------------
  // Deduplication (line 22)
  // ---------------------------------------------------------------------

  /** The rows of `s` that do not equal any earlier row: the first copy of
      every distinct row, in the original order. */
  function Distinct(s: seq<Row>): (r: seq<Row>)
    ensures |r| <= |s|
    ensures forall x :: x in r <==> x in s
  {
    if s == [] then []
    else
      var init, last := s[..|s| - 1], s[|s| - 1];
      assert s == init + [last];
      Distinct(init) + (if last in init then [] else [last])
  }

  ghost predicate NoDuplicates(s: seq<Row>) {
    forall i, j :: 0 <= i < j < |s| ==> s[i] != s[j]
  }

  /** The position of the first copy of `x` in `s`. */
  function FirstIndex(s: seq<Row>, x: Row): (i: nat)
    requires x in s
    ensures i < |s| && s[i] == x && x !in s[..i]
  {
    if s[0] == x then 0
    else
      var i := 1 + FirstIndex(s[1..], x);
      assert s[..i] == [s[0]] + s[1..][..i - 1];
      i
  }

  lemma {:induction false} DistinctHasNoDuplicates(s: seq<Row>)
    ensures NoDuplicates(Distinct(s))
  {
    if s != [] {
      var init, last := s[..|s| - 1], s[|s| - 1];
      DistinctHasNoDuplicates(init);
      if last !in init {
        var d := Distinct(init);
        assert last !in d;
        assert Distinct(s) == d + [last];
      }
    }
  }

  lemma {:induction false} FirstIndexOfPrefix(s: seq<Row>, n: nat, x: Row)
    requires n <= |s| && x in s[..n]
    ensures FirstIndex(s, x) == FirstIndex(s[..n], x)
  {
    if s[0] != x {
      assert s[1..][..n - 1] == s[..n][1..];
      FirstIndexOfPrefix(s[1..], n - 1, x);
    }
  }

  /** Deduplication keeps the original relative order of first copies. */
  lemma {:induction false} DistinctKeepsFirstCopyOrder(s: seq<Row>)
    ensures forall i, j :: 0 <= i < j < |Distinct(s)| ==>
      FirstIndex(s, Distinct(s)[i]) < FirstIndex(s, Distinct(s)[j])
  {
    if s != [] {
      var init, last := s[..|s| - 1], s[|s| - 1];
      var d := Distinct(init);
      DistinctKeepsFirstCopyOrder(init);
      forall x | x in init ensures FirstIndex(s, x) == FirstIndex(init, x) < |init| {
        FirstIndexOfPrefix(s, |init|, x);
      }
      if last !in init {
        assert Distinct(s) == d + [last];
        assert FirstIndex(s, last) == |init|;
        forall i, j | 0 <= i < j < |Distinct(s)|
          ensures FirstIndex(s, Distinct(s)[i]) < FirstIndex(s, Distinct(s)[j])
        {
          assert Distinct(s)[i] == d[i] && d[i] in d;
          if j < |d| {
            assert Distinct(s)[j] == d[j] && d[j] in d;
          }
        }
      } else {
        assert Distinct(s) == d;
        forall i, j | 0 <= i < j < |d| ensures FirstIndex(s, d[i]) < FirstIndex(s, d[j]) {
          assert d[i] in d && d[j] in d;
        }
      }
    }
  }

  // ---------------------------------------------------------------------
  // Column steps (lines 27-35), one row at a time
  // ---------------------------------------------------------------------

  /** `pd.to_datetime(..., errors='coerce')` on one cell: unparseable or
      missing text becomes a missing timestamp; a timestamp stays as it is. */
  function ToDatetime(parse: DateParser, c: DateCell): (d: DateCell)
    ensures d.Parsed?
    ensures c.Parsed? ==> d == c
    ensures c == Unparsed(None) ==> d.stamp == None
    ensures forall text :: c == Unparsed(Some(text)) ==> d.stamp == parse(text)
  {
    match c
    case Unparsed(None) => Parsed(None)
    case Unparsed(Some(text)) => Parsed(parse(text))
    case Parsed(_) => c
  }

  /** The timestamp a date cell holds, if any. The pipeline reads it only
      after the column has been converted. */
  function StampOf(c: DateCell): (t: Option<Timestamp>) {
    match c
    case Parsed(t) => t
    case Unparsed(_) => None
  }

  function WithParsedDate(parse: DateParser, r: Row): (s: Row) {
    r.(date := ToDatetime(parse, r.date))
  }

  /** `df["date"].dt.year`: missing where the timestamp is missing. */
  function WithYear(r: Row): (s: Row)
    ensures s == r.(year := s.year)
    ensures s.year.Some? <==> StampOf(r.date).Some?
    ensures s.year.Some? ==> s.year.value == StampOf(r.date).value.year
  {
    r.(year := match StampOf(r.date) case Some(t) => Some(t.year) case None => None)
  }

  /** `df["date"].dt.hour`: missing where the timestamp is missing. */
  function WithHour(r: Row): (s: Row)
    ensures s == r.(hour := s.hour)
    ensures s.hour.Some? <==> StampOf(r.date).Some?
    ensures s.hour.Some? ==> s.hour.value == StampOf(r.date).value.hour
  {
    r.(hour := match StampOf(r.date) case Some(t) => Some(t.hour) case None => None)
  }

  /** `fillna("Credit Card")` on the transaction type. */
  function WithDefaultTransactionType(r: Row): (s: Row)
    ensures s == r.(transactionType := s.transactionType)
    ensures s.transactionType.Some?
    ensures r.transactionType.Some? ==> s.transactionType == r.transactionType
    ensures r.transactionType.None? ==> s.transactionType == Some(DefaultTransactionType)
  {
    r.(transactionType := Some(r.transactionType.GetOr(DefaultTransactionType)))
  }

  /** `item_price * quantity`, missing when either operand is missing. */
  function Product(price: Option<int>, quantity: Option<int>): (p: Option<int>)
    ensures p.Some? <==> price.Some? && quantity.Some?
    ensures p.Some? ==> p.value == price.value * quantity.value
  {
    if price.Some? && quantity.Some? then Some(price.value * quantity.value) else None
  }

  function WithTotalAmount(r: Row): (s: Row)
    ensures s == r.(totalAmount := s.totalAmount)
    ensures s.totalAmount.Some? <==> r.itemPrice.Some? && r.quantity.Some?
    ensures s.totalAmount.Some? ==> s.totalAmount.value == r.itemPrice.value * r.quantity.value
  {
    r.(totalAmount := Product(r.itemPrice, r.quantity))
  }

  /** A whole-column assignment: `f` applied to every row. */
  function Apply(f: Row -> Row, s: seq<Row>): (r: seq<Row>)
    ensures |r| == |s| && forall i :: 0 <= i < |s| ==> r[i] == f(s[i])
  {
    seq(|s|, i requires 0 <= i < |s| => f(s[i]))
  }

  function ParseStep(parse: DateParser): (step: Row -> Row) {
    r => WithParsedDate(parse, r)
  }

  /** The table `load_and_process_data` returns for the file's rows. */
  function Processed(input: seq<Row>, parse: DateParser): (out: seq<Row>)
    ensures |out| == |Distinct(input)| <= |input|
    ensures forall i :: 0 <= i < |out| ==> out[i] == ProcessRow(parse, Distinct(input)[i])
    ensures forall i :: 0 <= i < |out| ==> out[i].date.Parsed? && out[i].transactionType.Some?
  {
    Apply(WithTotalAmount,
      Apply(WithDefaultTransactionType,
        Apply(WithHour,
          Apply(WithYear,
            Apply(ParseStep(parse), Distinct(input))))))
  }

  /** All the column steps, applied to one deduplicated row. */
  function ProcessRow(parse: DateParser, r: Row): (s: Row) {
    WithTotalAmount(WithDefaultTransactionType(WithHour(WithYear(WithParsedDate(parse, r)))))
  }

  // ---------------------------------------------------------------------
  // What the processed table satisfies
  // ---------------------------------------------------------------------

  /** The date column is converted, and `Year` and `Hour` are missing exactly
      when the row's date text is missing or does not parse; otherwise they
      are that timestamp's year and hour. */
  lemma ProcessedDateYearHour(input: seq<Row>, parse: DateParser)
    ensures var out, d := Processed(input, parse), Distinct(input);
      forall i :: 0 <= i < |out| ==>
        && out[i].date.Parsed?
        && (d[i].date == Unparsed(None) ==> out[i].date.stamp == None)
        && (forall text :: d[i].date == Unparsed(Some(text)) ==> out[i].date.stamp == parse(text))
        && (out[i].year == None <==> out[i].date.stamp == None)
        && (out[i].hour == None <==> out[i].date.stamp == None)
        && (out[i].date.stamp.Some? ==>
              out[i].year == Some(out[i].date.stamp.value.year) &&
              out[i].hour == Some(out[i].date.stamp.value.hour))
  {
  }

  /** No transaction type is missing afterwards: missing ones are
      "Credit Card", present ones are unchanged. */
  lemma ProcessedTransactionType(input: seq<Row>, parse: DateParser)
    ensures var out, d := Processed(input, parse), Distinct(input);
      forall i :: 0 <= i < |out| ==>
        && out[i].transactionType.Some?
        && (d[i].transactionType == None ==> out[i].transactionType == Some(DefaultTransactionType))
        && (d[i].transactionType.Some? ==> out[i].transactionType == d[i].transactionType)
  {
  }

  /** `total_amount` is price times quantity, and missing exactly when one
      of them is. */
  lemma ProcessedTotalAmount(input: seq<Row>, parse: DateParser)
    ensures var out := Processed(input, parse);
      forall i :: 0 <= i < |out| ==>
        && (out[i].totalAmount.Some? <==> out[i].itemPrice.Some? && out[i].quantity.Some?)
        && (out[i].totalAmount.Some? ==>
              out[i].totalAmount.value == out[i].itemPrice.value * out[i].quantity.value)
  {
  }

  /** The derivation steps keep every deduplicated row, in order, and do not
      touch the item, price, quantity or time-of-sale columns. */
  lemma ProcessedKeepsSourceColumns(input: seq<Row>, parse: DateParser)
    ensures var out, d := Processed(input, parse), Distinct(input);
      && |out| == |d| <= |input|
      && forall i :: 0 <= i < |out| ==>
        && out[i].itemType == d[i].itemType
        && out[i].itemPrice == d[i].itemPrice
        && out[i].quantity == d[i].quantity
        && out[i].timeOfSale == d[i].timeOfSale
  {
  }

  lemma DistinctOfOne(a: Row)
    ensures Distinct([a]) == [a]
  {
    assert [a][..0] == [];
  }

  lemma DistinctOfTwo(a: Row, b: Row)
    ensures Distinct([a, b]) == if a == b then [a] else [a, b]
  {
    assert [a, b][..1] == [a];
    DistinctOfOne(a);
  }

  /** The two identical rows of the repository's test collapse to one
      "Credit Card" row of year 2023, hour 0 and total 100. */
  lemma TestRowsCollapse(parse: DateParser)
    requires parse("2023-01-01") == Some(Timestamp(2023, 1, 1, 0, 0, 0))
    ensures var row := RawRow(Some("2023-01-01"), Some("Burger"), Some(100), Some(1), None, Some("10:00:00"));
      Processed([row, row], parse) ==
        [Row(Parsed(Some(Timestamp(2023, 1, 1, 0, 0, 0))), Some("Burger"), Some(100), Some(1),
             Some("Credit Card"), Some("10:00:00"), Some(2023), Some(0), Some(100))]
  {
    var row := RawRow(Some("2023-01-01"), Some("Burger"), Some(100), Some(1), None, Some("10:00:00"));
    DistinctOfTwo(row, row);
  }

  /** Deduplication looks at the raw text: two rows whose date strings differ
      but parse to the same timestamp both survive, and come out equal. */
  lemma EqualAfterParsingStillBothKept(a: Row, text1: string, text2: string, parse: DateParser)
    requires a.date == Unparsed(Some(text1)) && text1 != text2 && parse(text1) == parse(text2)
    ensures var out := Processed([a, a.(date := Unparsed(Some(text2)))], parse);
      |out| == 2 && out[0] == out[1]
  {
    var b := a.(date := Unparsed(Some(text2)));
    assert a != b by {
      assert a.date != b.date;
    }
    DistinctOfTwo(a, b);
    assert WithParsedDate(parse, a) == WithParsedDate(parse, b);
  }

  /** Every column step leaves a processed row as it is. */
  lemma ProcessRowIdempotent(parse: DateParser, r: Row)
    ensures ProcessRow(parse, ProcessRow(parse, r)) == ProcessRow(parse, r)
  {
  }

  /** Reprocessing a processed table changes no row's cells: it only
      removes the rows that became equal during processing (after parsing,
      filling or overwriting a derived column). */
  lemma ReprocessingOnlyDeduplicates(input: seq<Row>, parse: DateParser)
    ensures var out := Processed(input, parse);
      Processed(out, parse) == Distinct(out)
  {
    var out := Processed(input, parse);
    var d := Distinct(out);
    forall i | 0 <= i < |d| ensures ProcessRow(parse, d[i]) == d[i] {
      assert d[i] in out;
      var j :| 0 <= j < |out| && out[j] == d[i];
      ProcessRowIdempotent(parse, Distinct(input)[j]);
    }
  }

  // ---------------------------------------------------------------------
  // The pipeline, in place
  // ---------------------------------------------------------------------

  /** Deduplicating one more row of a prefix appends it when it is new. */
  lemma DistinctOfLongerPrefix(s: seq<Row>, i: nat)
    requires i < |s|
    ensures Distinct(s[..i + 1]) == Distinct(s[..i]) + (if s[i] in s[..i] then [] else [s[i]])
  {
    assert s[..i + 1][..i] == s[..i];
  }

  /** `df.drop_duplicates(inplace=True)`: compacts the first copy of every
      distinct row to the front of `df`; the table is then `df[..n]`. */
  method DropDuplicates(df: array<Row>) returns (n: nat)
    modifies df
    ensures n <= df.Length && df[..n] == Distinct(old(df[..]))
  {
    ghost var input := df[..];
    var seen: set<Row> := {};
    n := 0;
    for i := 0 to df.Length
      invariant n <= i
      invariant df[..n] == Distinct(input[..i])
      invariant df[i..] == input[i..]
      invariant seen == set x | x in input[..i]
    {
      var row := df[i];
      DistinctOfLongerPrefix(input, i);
      if row !in seen {
        df[n] := row;
        n := n + 1;
        seen := seen + {row};
      }
      assert df[i + 1..] == input[i + 1..] by {
        assert df[i..][1..] == df[i + 1..];
      }
    }
    assert input[..df.Length] == input;
  }

  /** `df[col] = expression of the row` for every row of the table `df[..n]`. */
  method AssignColumn(df: array<Row>, n: nat, f: Row -> Row)
    requires n <= df.Length
    modifies df
    ensures df[..n] == Apply(f, old(df[..n]))
    ensures df[n..] == old(df[n..])
  {
    for i := 0 to n
      invariant forall k :: 0 <= k < i ==> df[k] == f(old(df[k]))
      invariant forall k :: i <= k < df.Length ==> df[k] == old(df[k])
    {
      df[i] := f(df[i]);
    }
  }

  /** `load_and_process_data`: fails before anything else when the input
      file is absent; otherwise returns the processed table, the same table
      whether or not saving it succeeds. */
  method LoadAndProcessData(fileExists: bool, input: seq<Row>, parse: DateParser, saveSucceeds: bool)
    returns (r: Result<seq<Row>, LoadError>)
    ensures !fileExists ==> r == Failure(InputFileNotFound)
    ensures fileExists ==> r == Success(Processed(input, parse))
  {
    if !fileExists {
      return Failure(InputFileNotFound);
    }
    var df := new Row[|input|](i requires 0 <= i < |input| => input[i]);
    assert df[..] == input;
    var n := DropDuplicates(df);
    AssignColumn(df, n, ParseStep(parse));
    AssignColumn(df, n, WithYear);
    AssignColumn(df, n, WithHour);
    AssignColumn(df, n, WithDefaultTransactionType);
    AssignColumn(df, n, WithTotalAmount);
    // Writing df to the output file: its outcome only changes what is logged.
    r := Success(df[..n]);
  }
}
