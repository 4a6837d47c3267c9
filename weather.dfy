/**
 * The data transformations of the weather reporting utility: formatting a
 * temperature as Celsius text, the mean of a list of readings, the minimum
 * and maximum of a list together with the position of their last
 * occurrence, and the normalisation of the rows of a temperature table
 * whose header has been read and whose lines have been split into fields.
 */
module Weather {
  import opened Wrappers
  import opened IntText

  /** The exceptions the modelled code raises. */
  datatype PyError =
    | ZeroDivisionError          // mean of an empty list
    | ValueError(text: string)   // int() of a field that is not an integer literal
    | IndexError                 // a row without field 1, or without field 2 after field 1 parsed
    | StopIteration              // no header line to skip

  // ---------------------------------------------------------------------
  // Formatting

  /** The degree sign followed by the letter C. */
  const DegreeSymbol: string := "\U{00B0}C"

  /** The temperature text followed by the degree-Celsius suffix. */
  function FormatTemperature(temp: string): (r: string)
    ensures |r| == |temp| + 2
    ensures r[..|temp|] == temp
    ensures r[|temp|] == '\U{00B0}' && r[|temp| + 1] == 'C'
  {
    temp + DegreeSymbol
  }

  /** Different temperature texts never format to the same string. */
  lemma FormatTemperatureInjective(a: string, b: string)
    requires FormatTemperature(a) == FormatTemperature(b)
    ensures a == b
  {
    assert a == FormatTemperature(a)[..|a|];
  }

  lemma FormatTemperatureExample()
    ensures FormatTemperature("10.6") == "10.6\U{00B0}C"
  {
  }

  // ---------------------------------------------------------------------
  // Statistics

  /** Python's `min` of a non-empty list of numbers. */
  function Min(s: seq<int>): (m: int)
    requires |s| > 0
    ensures m in s
    ensures forall i :: 0 <= i < |s| ==> m <= s[i]
  {
    if |s| == 1 then s[0]
    else
      var rest := Min(s[1..]);
      if s[0] <= rest then s[0] else rest
  }

  /** Python's `max` of a non-empty list of numbers. */
  function Max(s: seq<int>): (m: int)
    requires |s| > 0
    ensures m in s
    ensures forall i :: 0 <= i < |s| ==> s[i] <= m
  {
    if |s| == 1 then s[0]
    else
      var rest := Max(s[1..]);
      if s[0] >= rest then s[0] else rest
  }

  /** `[i for i in range(len(s)) if float(s[i]) == v]`: every index holding v, in increasing order. */
  function Positions(s: seq<int>, v: real): (ps: seq<nat>)
    ensures forall k :: 0 <= k < |ps| ==> ps[k] < |s| && s[ps[k]] as real == v
    ensures forall i :: 0 <= i < |s| && s[i] as real == v ==> i in ps
    ensures forall k, l :: 0 <= k < l < |ps| ==> ps[k] < ps[l]
  {
    if |s| == 0 then []
    else Positions(s[..|s| - 1], v) + (if s[|s| - 1] as real == v then [|s| - 1] else [])
  }

  /** An extremum with the index of its last occurrence, or the empty tuple. */
  datatype Extremum = Empty | Found(value: real, index: nat)

  /** The list of positions of a value that occurs in the list is never empty. */
  lemma PositionsOfMember(s: seq<int>, x: int)
    requires x in s
    ensures |Positions(s, x as real)| > 0
  {
    var i :| 0 <= i < |s| && s[i] == x;
    assert i in Positions(s, x as real);
  }

  /** find_min: the smallest value and the last index where it occurs; Empty exactly for []. */
  function FindMin(s: seq<int>): (r: Extremum)
    ensures r.Empty? <==> |s| == 0
    ensures r.Found? ==> r.index < |s| && s[r.index] as real == r.value
    ensures r.Found? ==> forall i :: 0 <= i < |s| ==> r.value <= s[i] as real
    ensures r.Found? ==> forall i :: r.index < i < |s| ==> s[i] as real != r.value
  {
    if |s| > 0 then
      var minValue := Min(s) as real;
      var minPositions := Positions(s, minValue);
      PositionsOfMember(s, Min(s));
      if |minPositions| > 0 then Found(minValue, Max(minPositions)) else Empty
    else Empty
  }

  /** find_max: the largest value and the last index where it occurs; Empty exactly for []. */
  function FindMax(s: seq<int>): (r: Extremum)
    ensures r.Empty? <==> |s| == 0
    ensures r.Found? ==> r.index < |s| && s[r.index] as real == r.value
    ensures r.Found? ==> forall i :: 0 <= i < |s| ==> s[i] as real <= r.value
    ensures r.Found? ==> forall i :: r.index < i < |s| ==> s[i] as real != r.value
  {
    if |s| > 0 then
      var maxValue := Max(s) as real;
      var maxPositions := Positions(s, maxValue);
      PositionsOfMember(s, Max(s));
      if |maxPositions| > 0 then Found(maxValue, Max(maxPositions)) else Empty
    else Empty
  }

  /** The contract of FindMin determines its result: any value and index with that property are it. */
  lemma FindMinUnique(s: seq<int>, v: int, k: nat)
    requires k < |s| && s[k] == v
    requires forall i :: 0 <= i < |s| ==> v <= s[i]
    requires forall i :: k < i < |s| ==> s[i] != v
    ensures FindMin(s) == Found(v as real, k)
  {
    var r := FindMin(s);
    assert r.value == v as real;
  }

  /** The contract of FindMax determines its result: any value and index with that property are it. */
  lemma FindMaxUnique(s: seq<int>, v: int, k: nat)
    requires k < |s| && s[k] == v
    requires forall i :: 0 <= i < |s| ==> s[i] <= v
    requires forall i :: k < i < |s| ==> s[i] != v
    ensures FindMax(s) == Found(v as real, k)
  {
    var r := FindMax(s);
    assert r.value == v as real;
  }

  /** Ties resolve to the last occurrence. */
  lemma FindMinMaxExamples()
    ensures FindMin([5, 3, 3, 8]) == Found(3.0, 2)
    ensures FindMax([5, 8, 8, 3]) == Found(8.0, 2)
    ensures FindMin([]) == Empty && FindMax([]) == Empty
  {
    FindMinUnique([5, 3, 3, 8], 3, 2);
    FindMaxUnique([5, 8, 8, 3], 8, 2);
  }

  /** Python's `sum` of a list of numbers, which adds the elements from left to right. */
  function Sum(s: seq<int>): int
  {
    if |s| == 0 then 0 else s[0] + Sum(s[1..])
  }

  /** The sum is what adding the elements one at a time, from the left, accumulates. */
  lemma {:induction false} SumLeftToRight(s: seq<int>)
    requires |s| > 0
    ensures Sum(s) == Sum(s[..|s| - 1]) + s[|s| - 1]
  {
    if |s| > 1 {
      assert s[1..][..|s| - 2] == s[..|s| - 1][1..];
      SumLeftToRight(s[1..]);
    }
  }

  /** calculate_mean: the sum divided by the length; dividing by a zero length raises. */
  function CalculateMean(s: seq<int>): (r: Result<real, PyError>)
    ensures r.Err? <==> |s| == 0
    ensures r.Err? ==> r.error == ZeroDivisionError
    ensures r.Ok? ==> r.value * |s| as real == Sum(s) as real
  {
    if |s| == 0 then Err(ZeroDivisionError)
    else Ok(Sum(s) as real / |s| as real)
  }

  /** A sum of values between lo and hi lies between |s| * lo and |s| * hi. */
  lemma {:induction false} SumBounds(s: seq<int>, lo: int, hi: int)
    requires forall i :: 0 <= i < |s| ==> lo <= s[i] <= hi
    ensures |s| * lo <= Sum(s) <= |s| * hi
  {
    if |s| > 0 {
      SumBounds(s[1..], lo, hi);
      assert |s| * lo == lo + (|s| - 1) * lo;
      assert |s| * hi == hi + (|s| - 1) * hi;
    }
  }

  /** The mean of a non-empty list lies between its minimum and its maximum. */
  lemma MeanBetweenMinAndMax(s: seq<int>)
    requires |s| > 0
    ensures Min(s) as real <= CalculateMean(s).value <= Max(s) as real
  {
    SumBounds(s, Min(s), Max(s));
    QuotientBounds(Sum(s), |s|, Min(s), Max(s));
  }

  /** Dividing len * lo <= sum <= len * hi by a positive len. */
  lemma QuotientBounds(sum: int, len: int, lo: int, hi: int)
    requires len > 0 && len * lo <= sum <= len * hi
    ensures lo as real <= sum as real / len as real <= hi as real
  {
    var n := len as real;
    assert (len * lo) as real == n * lo as real;
    assert (len * hi) as real == n * hi as real;
    assert sum as real / n * n == sum as real;
  }

  lemma CalculateMeanExample()
    ensures CalculateMean([49, 57, 56, 55, 53]) == Ok(54.0)
  {
    assert Sum([49, 57, 56, 55, 53]) == 270;
  }

  // ---------------------------------------------------------------------
  // Loading the table

  /** A field of a row: the text read from the file, or an integer it was replaced by. */
  datatype Cell = Text(text: string) | Num(value: int)

  /** A row as the CSV reader yields it: every field is text. */
  function TextCells(row: seq<string>): (cells: seq<Cell>)
    ensures |cells| == |row|
    ensures forall j :: 0 <= j < |row| ==> cells[j] == Text(row[j])
  {
    seq(|row|, j requires 0 <= j < |row| => Text(row[j]))
  }

  /**
   * One non-empty row: fields 1 and 2 replaced by their integer values, in
   * that order, so a missing or malformed field 1 raises before field 2 is looked at.
   */
  function NormaliseRow(row: seq<string>): (r: Result<seq<Cell>, PyError>)
    ensures r.Ok? <==> |row| >= 3 && ParseInt(row[1]).Some? && ParseInt(row[2]).Some?
    ensures r.Ok? ==> |r.value| == |row|
    ensures r.Ok? ==> r.value[1] == Num(ParseInt(row[1]).value) && r.value[2] == Num(ParseInt(row[2]).value)
    ensures r.Ok? ==> forall j :: 0 <= j < |row| && j != 1 && j != 2 ==> r.value[j] == Text(row[j])
    ensures r == Err(IndexError) <==> |row| < 2 || (|row| == 2 && ParseInt(row[1]).Some?)
    ensures |row| >= 2 && ParseInt(row[1]).None? ==> r == Err(ValueError(row[1]))
    ensures |row| >= 3 && ParseInt(row[1]).Some? && ParseInt(row[2]).None? ==> r == Err(ValueError(row[2]))
    ensures r.Err? ==> r.error.IndexError? || r.error.ValueError?
  {
    var cells := TextCells(row);
    if |row| < 2 then Err(IndexError)
    else match ParseInt(row[1])
      case None => Err(ValueError(row[1]))
      case Some(low) =>
        if |row| < 3 then Err(IndexError)
        else match ParseInt(row[2])
          case None => Err(ValueError(row[2]))
          case Some(high) => Ok(cells[1 := Num(low)][2 := Num(high)])
  }

  /** The rows after the header: empty rows skipped, the others normalised in order; the first failure is raised. */
  function NormaliseRows(data: seq<seq<string>>): (r: Result<seq<seq<Cell>>, PyError>)
    ensures r.Ok? ==> |r.value| <= |data|
    ensures r.Err? ==> r.error.IndexError? || r.error.ValueError?
  {
    if |data| == 0 then Ok([])
    else if |data[0]| == 0 then NormaliseRows(data[1..])
    else match NormaliseRow(data[0])
      case Err(e) => Err(e)
      case Ok(cells) =>
        match NormaliseRows(data[1..])
        case Err(e) => Err(e)
        case Ok(rest) => Ok([cells] + rest)
  }

  /** load_data_from_csv after tokenising: skip the header line, which must exist, then normalise the rest. */
  function Load(rows: seq<seq<string>>): (r: Result<seq<seq<Cell>>, PyError>)
    ensures r == Err(StopIteration) <==> |rows| == 0
    ensures |rows| == 1 ==> r == Ok([])
    ensures r.Ok? ==> |r.value| < |rows|
  {
    if |rows| == 0 then Err(StopIteration) else NormaliseRows(rows[1..])
  }

  /** Rows already loaded, followed by the outcome of loading the remaining ones. */
  function Prepend(done: seq<seq<Cell>>, rest: Result<seq<seq<Cell>>, PyError>): Result<seq<seq<Cell>>, PyError>
  {
    match rest
    case Ok(more) => Ok(done + more)
    case Err(e) => Err(e)
  }

  /** The loop of load_data_from_csv over the rows the CSV reader yields. */
  method LoadDataFromRows(rows: seq<seq<string>>) returns (r: Result<seq<seq<Cell>>, PyError>)
    ensures r == Load(rows)
  {
    if |rows| == 0 {
      return Err(StopIteration);
    }
    var weatherData: seq<seq<Cell>> := [];
    var i := 1;
    PrependNothing(NormaliseRows(rows[1..]));
    while i < |rows|
      invariant 1 <= i <= |rows|
      invariant Prepend(weatherData, NormaliseRows(rows[i..])) == Load(rows)
    {
      var row := rows[i];
      assert rows[i..][1..] == rows[i + 1..];
      if |row| > 0 {
        var cells := TextCells(row);
        if |cells| < 2 {
          return Err(IndexError);
        }
        var low := ParseInt(row[1]);
        if low.None? {
          return Err(ValueError(row[1]));
        }
        cells := cells[1 := Num(low.value)];
        if |cells| < 3 {
          return Err(IndexError);
        }
        var high := ParseInt(row[2]);
        if high.None? {
          return Err(ValueError(row[2]));
        }
        cells := cells[2 := Num(high.value)];
        assert NormaliseRow(row) == Ok(cells);
        var rest := NormaliseRows(rows[i + 1..]);
        if rest.Ok? {
          assert weatherData + ([cells] + rest.value) == (weatherData + [cells]) + rest.value;
        }
        weatherData := weatherData + [cells];
      }
      i := i + 1;
    }
    assert rows[i..] == [];
    assert weatherData + [] == weatherData;
    return Ok(weatherData);
  }

  lemma PrependNothing(rest: Result<seq<seq<Cell>>, PyError>)
    ensures Prepend([], rest) == rest
  {
    if rest.Ok? { assert [] + rest.value == rest.value; }
  }

  /** The non-empty rows, in their original order. */
  function NonEmptyRows(data: seq<seq<string>>): (r: seq<seq<string>>)
    ensures |r| <= |data|
    ensures forall k :: 0 <= k < |r| ==> |r[k]| > 0
  {
    if |data| == 0 then []
    else if |data[0]| == 0 then NonEmptyRows(data[1..])
    else [data[0]] + NonEmptyRows(data[1..])
  }

  /** The kept rows are exactly the non-empty rows of the input. */
  lemma {:induction false} NonEmptyRowsMembers(data: seq<seq<string>>)
    ensures forall x :: x in NonEmptyRows(data) <==> x in data && |x| > 0
  {
    if |data| > 0 {
      NonEmptyRowsMembers(data[1..]);
      assert forall x :: x in data <==> x == data[0] || x in data[1..];
    }
  }

  /** Filtering distributes over concatenation, so the relative order of rows is kept. */
  lemma {:induction false} NonEmptyRowsAppend(a: seq<seq<string>>, b: seq<seq<string>>)
    ensures NonEmptyRows(a + b) == NonEmptyRows(a) + NonEmptyRows(b)
  {
    if |a| > 0 {
      assert (a + b)[1..] == a[1..] + b;
      NonEmptyRowsAppend(a[1..], b);
    } else {
      assert a + b == b;
    }
  }

  /** A successful normalisation holds one normalised row per non-empty row, in order. */
  lemma {:induction false} NormaliseRowsOk(data: seq<seq<string>>)
    requires NormaliseRows(data).Ok?
    ensures |NormaliseRows(data).value| == |NonEmptyRows(data)|
    ensures forall k :: 0 <= k < |NonEmptyRows(data)| ==>
      NormaliseRow(NonEmptyRows(data)[k]) == Ok(NormaliseRows(data).value[k])
  {
    if |data| > 0 {
      NormaliseRowsOk(data[1..]);
      if |data[0]| > 0 {
        var ne := NonEmptyRows(data);
        var tail := NonEmptyRows(data[1..]);
        var out := NormaliseRows(data).value;
        assert ne == [data[0]] + tail;
        assert out == [NormaliseRow(data[0]).value] + NormaliseRows(data[1..]).value;
        forall k | 0 <= k < |ne|
          ensures NormaliseRow(ne[k]) == Ok(out[k])
        {
          if k > 0 { assert ne[k] == tail[k - 1]; }
        }
      }
    }
  }

  /** Every row of the list can be normalised. */
  predicate AllNormalise(rows: seq<seq<string>>) {
    forall k :: 0 <= k < |rows| ==> NormaliseRow(rows[k]).Ok?
  }

  /** Normalisation succeeds exactly when every non-empty row can be normalised. */
  lemma {:induction false} NormaliseRowsOkIff(data: seq<seq<string>>)
    ensures NormaliseRows(data).Ok? <==> AllNormalise(NonEmptyRows(data))
  {
    if |data| > 0 {
      NormaliseRowsOkIff(data[1..]);
      var ne := NonEmptyRows(data);
      var tail := NonEmptyRows(data[1..]);
      if |data[0]| == 0 {
        assert ne == tail;
        assert NormaliseRows(data) == NormaliseRows(data[1..]);
      } else {
        assert ne == [data[0]] + tail;
        AllNormaliseCons(data[0], tail);
        if NormaliseRow(data[0]).Ok? {
          assert NormaliseRows(data).Ok? <==> NormaliseRows(data[1..]).Ok?;
        }
      }
    }
  }

  lemma AllNormaliseCons(row: seq<string>, rows: seq<seq<string>>)
    ensures AllNormalise([row] + rows) <==> NormaliseRow(row).Ok? && AllNormalise(rows)
  {
    var all := [row] + rows;
    assert forall k :: 0 < k < |all| ==> all[k] == rows[k - 1];
    if NormaliseRow(row).Ok? && AllNormalise(rows) {
      forall k | 0 <= k < |all|
        ensures NormaliseRow(all[k]).Ok?
      {
        if k > 0 { assert all[k] == rows[k - 1]; }
      }
    }
    if AllNormalise(all) {
      assert all[0] == row;
      forall k | 0 <= k < |rows|
        ensures NormaliseRow(rows[k]).Ok?
      {
        assert rows[k] == all[k + 1];
      }
    }
  }

  /** A failed normalisation raises the error of the first non-empty row that fails. */
  lemma {:induction false} NormaliseRowsFirstError(data: seq<seq<string>>)
    requires NormaliseRows(data).Err?
    ensures exists k :: (0 <= k < |NonEmptyRows(data)| &&
      NormaliseRow(NonEmptyRows(data)[k]) == Err(NormaliseRows(data).error) &&
      forall j :: 0 <= j < k ==> NormaliseRow(NonEmptyRows(data)[j]).Ok?)
  {
    if |data[0]| == 0 {
      assert NonEmptyRows(data) == NonEmptyRows(data[1..]);
      assert NormaliseRows(data) == NormaliseRows(data[1..]);
      NormaliseRowsFirstError(data[1..]);
    } else {
      var ne := NonEmptyRows(data);
      var tail := NonEmptyRows(data[1..]);
      assert ne == [data[0]] + tail;
      if NormaliseRow(data[0]).Err? {
        assert NormaliseRow(ne[0]) == Err(NormaliseRows(data).error);
      } else {
        NormaliseRowsFirstError(data[1..]);
        var k :| 0 <= k < |tail| &&
          NormaliseRow(tail[k]) == Err(NormaliseRows(data[1..]).error) &&
          forall j :: 0 <= j < k ==> NormaliseRow(tail[j]).Ok?;
        assert ne[k + 1] == tail[k];
        forall j | 0 <= j < k + 1
          ensures NormaliseRow(ne[j]).Ok?
        {
          if j > 0 { assert ne[j] == tail[j - 1]; }
        }
      }
    }
  }

  /**
   * A successful load keeps, per non-empty data row and in file order, every
   * field except 1 and 2 as text (the date in field 0 among them) and
   * replaces fields 1 and 2 by their integer values.
   */
  lemma LoadedRows(rows: seq<seq<string>>)
    requires Load(rows).Ok?
    ensures |rows| > 0
    ensures |Load(rows).value| == |NonEmptyRows(rows[1..])|
    ensures forall k :: 0 <= k < |Load(rows).value| ==>
      var row := NonEmptyRows(rows[1..])[k];
      var cells := Load(rows).value[k];
      |cells| == |row| >= 3 &&
      cells[0] == Text(row[0]) &&
      ParseInt(row[1]).Some? && cells[1] == Num(ParseInt(row[1]).value) &&
      ParseInt(row[2]).Some? && cells[2] == Num(ParseInt(row[2]).value) &&
      forall j :: 3 <= j < |row| ==> cells[j] == Text(row[j])
  {
    NormaliseRowsOk(rows[1..]);
  }

  /** A load fails exactly when there is no header or some non-empty data row cannot be normalised. */
  lemma LoadFails(rows: seq<seq<string>>)
    ensures Load(rows).Err? <==>
      |rows| == 0 ||
      exists k :: 0 <= k < |NonEmptyRows(rows[1..])| && NormaliseRow(NonEmptyRows(rows[1..])[k]).Err?
    ensures Load(rows) == Err(StopIteration) <==> |rows| == 0
  {
    if |rows| > 0 {
      NormaliseRowsOkIff(rows[1..]);
      if Load(rows).Err? {
        NormaliseRowsFirstError(rows[1..]);
      }
    }
  }

  /** A row whose temperatures are rendered integers loads back to those integers. */
  lemma NormaliseRenderedRow(date: string, low: int, high: int, extra: seq<string>)
    ensures NormaliseRow([date, ShowInt(low), ShowInt(high)] + extra)
      == Ok([Text(date), Num(low), Num(high)] + TextCells(extra))
  {
    ParseShowRoundTrip(low);
    ParseShowRoundTrip(high);
    var row := [date, ShowInt(low), ShowInt(high)] + extra;
    assert row[1] == ShowInt(low) && row[2] == ShowInt(high);
    var cells := NormaliseRow(row).value;
    var expected := [Text(date), Num(low), Num(high)] + TextCells(extra);
    assert NormaliseRow(row).Ok?;
    assert |cells| == |expected|;
    forall j | 0 <= j < |cells|
      ensures cells[j] == expected[j]
    {
      if j >= 3 {
        assert row[j] == extra[j - 3];
        assert expected[j] == TextCells(extra)[j - 3];
      }
    }
    assert cells == expected;
  }

  lemma NormaliseThreeFields(date: string, low: string, high: string)
    requires ParseInt(low).Some? && ParseInt(high).Some?
    ensures NormaliseRow([date, low, high])
      == Ok([Text(date), Num(ParseInt(low).value), Num(ParseInt(high).value)])
  {
    var cells := NormaliseRow([date, low, high]).value;
    assert cells == [cells[0], cells[1], cells[2]];
  }

  lemma ParsesAs(text: string, n: nat)
    requires 10 <= n < 100 && text == [DigitChar(n / 10), DigitChar(n % 10)]
    ensures ParseInt(text) == Some(n)
  {
    assert text[..1] == [DigitChar(n / 10)] && text[..1][..0] == [];
    assert DigitsValue(text[..1]) == n / 10;
    assert DigitsValue(text) == n / 10 * 10 + n % 10;
  }

  /** A header and two data rows load as two rows with integer temperatures and the dates unchanged. */
  lemma LoadExample()
    ensures Load([["date", "min", "max"], ["2021-07-06", "49", "65"], [], ["2021-07-07", "57", "70"]])
      == Ok([[Text("2021-07-06"), Num(49), Num(65)], [Text("2021-07-07"), Num(57), Num(70)]])
  {
    var first := ["2021-07-06", "49", "65"];
    var second := ["2021-07-07", "57", "70"];
    ParsesAs("49", 49);
    ParsesAs("65", 65);
    ParsesAs("57", 57);
    ParsesAs("70", 70);
    var data := [first, [], second];
    assert data[1..][1..] == [second] && [second][1..] == [];
    NormaliseThreeFields("2021-07-06", "49", "65");
    NormaliseThreeFields("2021-07-07", "57", "70");
    var c1 := [Text("2021-07-06"), Num(49), Num(65)];
    var c2 := [Text("2021-07-07"), Num(57), Num(70)];
    assert NormaliseRow(first) == Ok(c1) && NormaliseRow(second) == Ok(c2);
    assert [second][0] == second && |second| == 3;
    assert NormaliseRows([second][1..]) == Ok([]);
    assert [c2] + [] == [c2];
    assert NormaliseRows([second]) == Ok([c2]);
    assert data[1..][0] == [] && data[0] == first;
    assert NormaliseRows(data[1..]) == NormaliseRows([second]);
    assert [c1] + [c2] == [c1, c2];
    assert NormaliseRows(data) == Ok([c1, c2]);
    assert [["date", "min", "max"], first, [], second][1..] == data;
  }
}
