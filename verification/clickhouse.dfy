/**
  ClickHouse value conversion (`convertToType`) for date/time columns and
  array columns, as the dialect's test vectors pin it down.
 */
module ClickHouse {

  import opened Results
  import opened Decimal
  import Calendar
  import JsonArray

  /** The Go element types of array columns that the model covers. */
  datatype ArrayElem = StringElem | IntElem | TimeElem

  /** The Go column types the model covers: `time.Time` and slices. */
  datatype ColumnType = TimeColumn | ArrayColumn(elem: ArrayElem)

  /** A converted value: a date kept as text, epoch seconds, or a list. */
  datatype Value = DateText(text: string) | UnixTime(seconds: int) | Strings(strings: seq<string>) | Ints(ints: seq<int>)

  /** `needle` occurs in `hay` at index `i`. */
  predicate OccursAt(hay: string, needle: string, i: nat) {
    var n := |needle|;
    i + n <= |hay| && hay[i..i + n] == needle
  }

  /** `needle` occurs somewhere in `hay`. */
  predicate Contains(hay: string, needle: string) {
    exists i: nat | i <= |hay| :: OccursAt(hay, needle, i)
  }

  /** `s` holds `n` digits from index `i` on. */
  predicate DigitsAt(s: string, i: nat, n: nat) {
    n == 0 || (i + n <= |s| && IsDigit(s[i + n - 1]) && DigitsAt(s, i, n - 1))
  }

  /** The number the `n` digits at index `i` denote. */
  function NumberAt(s: string, i: nat, n: nat): nat
    requires DigitsAt(s, i, n)
  {
    if n == 0 then 0 else NumberAt(s, i, n - 1) * 10 + DigitValue(s[i + n - 1])
  }

  /** `s` starts with `YYYY-MM-DD`. */
  predicate StartsWithDate(s: string) {
    |s| >= 10 && DigitsAt(s, 0, 4) && s[4] == '-' && DigitsAt(s, 5, 2) && s[7] == '-' && DigitsAt(s, 8, 2)
  }

  /** `s` holds `HH:MM:SS` at index 11. */
  predicate ClockAt11(s: string) {
    |s| >= 19 && DigitsAt(s, 11, 2) && s[13] == ':' && DigitsAt(s, 14, 2) && s[16] == ':' && DigitsAt(s, 17, 2)
  }

  /** A bare calendar date. */
  predicate IsDate(s: string) {
    |s| == 10 && StartsWithDate(s)
  }

  /** The whole-second `Z` form of an RFC 3339 (section 5.6) date-time: `YYYY-MM-DDTHH:MM:SSZ`. */
  predicate IsUtcDateTime(s: string) {
    |s| == 20 && StartsWithDate(s) && s[10] == 'T' && ClockAt11(s) && s[19] == 'Z'
  }

  /** A date-time written `YYYY-MM-DD HH:MM:SS`, read as UTC. */
  predicate IsSpacedDateTime(s: string) {
    |s| == 19 && StartsWithDate(s) && s[10] == ' ' && ClockAt11(s)
  }

  function Year(s: string): nat requires StartsWithDate(s) { NumberAt(s, 0, 4) }
  function Month(s: string): nat requires StartsWithDate(s) { NumberAt(s, 5, 2) }
  function Day(s: string): nat requires StartsWithDate(s) { NumberAt(s, 8, 2) }
  function Hour(s: string): nat requires ClockAt11(s) { NumberAt(s, 11, 2) }
  function Minute(s: string): nat requires ClockAt11(s) { NumberAt(s, 14, 2) }
  function Second(s: string): nat requires ClockAt11(s) { NumberAt(s, 17, 2) }

  predicate MonthInRange(s: string)
    requires StartsWithDate(s)
  {
    1 <= Month(s) <= 12
  }

  /** Why a value could not be converted. */
  datatype ConvertError =
    | ParseFailed(value: string, target: string, reason: string)
    | UnsupportedArray(typeName: string)
    | SliceUnmarshal(value: string, cause: string)

  /** `t` between double quotes, as Go's `%q` writes text without special characters. */
  function Quote(t: string): string {
    "\"" + t + "\""
  }

  // The message texts below are written in pieces so that proofs about
  // concrete messages can match them piece by piece.

  /** The start of a parse failure's message, up to its reason. */
  function ParseFailedHead(value: string, target: string): string {
    "could not convert " + value + (" to " + target) + ": parsing time " + Quote(value) + ": "
  }

  /** The error text the driver layer reports. */
  function Message(e: ConvertError): string {
    match e
    case ParseFailed(value, target, reason) => ParseFailedHead(value, target) + reason
    case UnsupportedArray(typeName) => Quote(typeName) + " is not supported " + "as Clickhouse Array type"
    case SliceUnmarshal(value, cause) => "could not JSON unmarshal " + value + ": " + cause
  }

  /** Every failure's message names the offending value and the reason. */
  lemma {:induction false} MessageMentions(e: ConvertError)
    ensures e.ParseFailed? ==> Contains(Message(e), e.value) && Contains(Message(e), e.reason)
    ensures e.UnsupportedArray? ==> Contains(Message(e), e.typeName)
    ensures e.SliceUnmarshal? ==> Contains(Message(e), e.value) && Contains(Message(e), e.cause)
  {
    match e
    case ParseFailed(value, target, reason) =>
      var a := "could not convert " + value;
      Mentions("could not convert ", value);
      var b := a + (" to " + target);
      Extend(a, value, " to " + target);
      var c := b + ": parsing time ";
      Extend(b, value, ": parsing time ");
      var d := c + Quote(value);
      Extend(c, value, Quote(value));
      Extend(d, value, ": ");
      Extend(d + ": ", value, reason);
      Mentions(ParseFailedHead(value, target), reason);
    case UnsupportedArray(typeName) =>
      Mentions("\"", typeName);
      Extend("\"" + typeName, typeName, "\"");
      Extend(Quote(typeName), typeName, " is not supported ");
      Extend(Quote(typeName) + " is not supported ", typeName, "as Clickhouse Array type");
    case SliceUnmarshal(value, cause) =>
      Mentions("could not JSON unmarshal ", value);
      Extend("could not JSON unmarshal " + value, value, ": ");
      Extend("could not JSON unmarshal " + value + ": ", value, cause);
      Mentions("could not JSON unmarshal " + value + ": ", cause);
  }

  /** `b` occurs in `a + b` just after `a`. */
  lemma Mentions(a: string, b: string)
    ensures Contains(a + b, b)
  {
    var n := |b|;
    assert (a + b)[|a|..|a| + n] == b;
    assert OccursAt(a + b, b, |a|);
  }

  /** Appending keeps an occurrence. */
  lemma Extend(a: string, needle: string, b: string)
    requires Contains(a, needle)
    ensures Contains(a + b, needle)
  {
    var i: nat :| i <= |a| && OccursAt(a, needle, i);
    assert (a + b)[i..i + |needle|] == a[i..i + |needle|];
    assert OccursAt(a + b, needle, i);
  }

  function StringsOf(items: seq<JsonArray.Item>): (xs: seq<string>)
    requires JsonArray.AllOfKind(items, JsonArray.StringKind)
    ensures |xs| == |items| && forall i :: 0 <= i < |items| ==> items[i] == JsonArray.Str(xs[i])
  {
    seq(|items|, i requires 0 <= i < |items| => items[i].s)
  }

  function IntsOf(items: seq<JsonArray.Item>): (ns: seq<int>)
    requires JsonArray.AllOfKind(items, JsonArray.IntKind)
    ensures |ns| == |items| && forall i :: 0 <= i < |items| ==> items[i] == JsonArray.Num(ns[i])
  {
    seq(|items|, i requires 0 <= i < |items| => items[i].n)
  }

  /** Seconds since the epoch of a date-time whose month is in range. */
  function EpochSeconds(s: string): int
    requires StartsWithDate(s) && ClockAt11(s) && MonthInRange(s)
  {
    Calendar.UnixSeconds(Year(s), Month(s), Day(s), Hour(s), Minute(s), Second(s))
  }

  /** Convert a change's string value to what the ClickHouse driver takes for a column of type `t`. */
  function ConvertToType(value: string, t: ColumnType): (r: Result<Value, ConvertError>)
    // an array of times is refused whatever the value
    ensures t == ArrayColumn(TimeElem) ==> r == Failure(UnsupportedArray("Time"))
    // a bare date is checked and kept as text
    ensures t == TimeColumn && IsDate(value) ==>
      && (r.Success? <==> MonthInRange(value))
      && (r.Success? ==> r.value == DateText(value))
      && (r.Failure? ==> r.error == ParseFailed(value, "date", "month out of range"))
    // a date-time in either layout becomes epoch seconds
    ensures t == TimeColumn && (IsUtcDateTime(value) || IsSpacedDateTime(value)) ==>
      && (r.Success? <==> MonthInRange(value))
      && (r.Success? ==> r.value.UnixTime?)
      && (r.Failure? ==> r.error == ParseFailed(value, "time", "month out of range"))
    // any other text is no date or time
    ensures t == TimeColumn && !IsDate(value) && !IsUtcDateTime(value) && !IsSpacedDateTime(value) ==>
      r.Failure? && r.error.ParseFailed? && r.error.value == value
    // arrays succeed exactly when the literal parses, and keep its elements in order
    ensures t.ArrayColumn? && t.elem != TimeElem ==>
      var kind := if t.elem == StringElem then JsonArray.StringKind else JsonArray.IntKind;
      var parsed := JsonArray.ParseArray(value, kind);
      && (r.Success? <==> parsed.Success?)
      && (r.Success? && kind == JsonArray.StringKind ==>
            r.value.Strings? && |r.value.strings| == |parsed.value|
            && forall i :: 0 <= i < |parsed.value| ==> parsed.value[i] == JsonArray.Str(r.value.strings[i]))
      && (r.Success? && kind == JsonArray.IntKind ==>
            r.value.Ints? && |r.value.ints| == |parsed.value|
            && forall i :: 0 <= i < |parsed.value| ==> parsed.value[i] == JsonArray.Num(r.value.ints[i]))
      && (r.Failure? ==> r.error == SliceUnmarshal(value, parsed.error))
  {
    match t
    case ArrayColumn(TimeElem) => Failure(UnsupportedArray("Time"))
    case ArrayColumn(StringElem) =>
      (match JsonArray.ParseArray(value, JsonArray.StringKind)
       case Failure(cause) => Failure(SliceUnmarshal(value, cause))
       case Success(items) => Success(Strings(StringsOf(items))))
    case ArrayColumn(IntElem) =>
      (match JsonArray.ParseArray(value, JsonArray.IntKind)
       case Failure(cause) => Failure(SliceUnmarshal(value, cause))
       case Success(items) => Success(Ints(IntsOf(items))))
    case TimeColumn =>
      if IsDate(value) then
        if MonthInRange(value) then Success(DateText(value))
        else Failure(ParseFailed(value, "date", "month out of range"))
      else if IsUtcDateTime(value) || IsSpacedDateTime(value) then
        if MonthInRange(value) then Success(UnixTime(EpochSeconds(value)))
        else Failure(ParseFailed(value, "time", "month out of range"))
      else Failure(ParseFailed(value, "time", "cannot parse as a date-time"))
  }

  // Both date-time layouts denote the same instant.

  /** The `YYYY-MM-DD HH:MM:SS` spelling of an RFC 3339 UTC date-time. */
  function Spaced(s: string): (r: string)
    requires IsUtcDateTime(s)
    ensures |r| == 19 && forall k :: 0 <= k < 19 && k != 10 ==> r[k] == s[k]
  {
    s[..10] + [' '] + s[11..19]
  }

  /** Digit fields agree between strings that agree on their characters. */
  lemma {:induction false} SameDigits(s: string, t: string, i: nat, n: nat)
    requires i + n <= |s| && i + n <= |t|
    requires forall k :: i <= k < i + n ==> s[k] == t[k]
    ensures DigitsAt(s, i, n) == DigitsAt(t, i, n)
    ensures DigitsAt(s, i, n) ==> NumberAt(s, i, n) == NumberAt(t, i, n)
  {
    if n > 0 {
      SameDigits(s, t, i, n - 1);
    }
  }

  /** Writing the date-time with a space instead of `T` and without `Z` gives the same instant; only the error text differs. */
  lemma LayoutsAgree(s: string)
    requires IsUtcDateTime(s)
    ensures IsSpacedDateTime(Spaced(s))
    ensures ConvertToType(s, TimeColumn).Success? <==> ConvertToType(Spaced(s), TimeColumn).Success?
    ensures ConvertToType(s, TimeColumn).Success? ==> ConvertToType(s, TimeColumn) == ConvertToType(Spaced(s), TimeColumn)
  {
    var w := Spaced(s);
    SameDigits(s, w, 0, 4);
    SameDigits(s, w, 5, 2);
    SameDigits(s, w, 8, 2);
    SameDigits(s, w, 11, 2);
    SameDigits(s, w, 14, 2);
    SameDigits(s, w, 17, 2);
    assert IsSpacedDateTime(w) && !IsDate(w) && !IsDate(s);
    assert Month(s) == Month(w);
    assert MonthInRange(s) ==> EpochSeconds(s) == EpochSeconds(w);
  }

  /** The seconds are the days from 1970-01-01, counted month by month, times 86400 plus the clock. */
  lemma EpochSecondsCount(s: string)
    requires IsUtcDateTime(s) || IsSpacedDateTime(s)
    requires MonthInRange(s)
    ensures ConvertToType(s, TimeColumn) ==
      Success(UnixTime(Calendar.EpochDays(Year(s), Month(s), Day(s)) * 86400 + Hour(s) * 3600 + Minute(s) * 60 + Second(s)))
  {
    Calendar.DaysFromCivilIsEpochDays(Year(s), Month(s), Day(s));
  }

  // Round trips: the driver gets back the list whose literal was stored.

  function StrItems(xs: seq<string>): (items: seq<JsonArray.Item>)
    ensures |items| == |xs| && forall i :: 0 <= i < |xs| ==> items[i] == JsonArray.Str(xs[i])
  {
    seq(|xs|, i requires 0 <= i < |xs| => JsonArray.Str(xs[i]))
  }

  function NumItems(ns: seq<int>): (items: seq<JsonArray.Item>)
    ensures |items| == |ns| && forall i :: 0 <= i < |ns| ==> items[i] == JsonArray.Num(ns[i])
  {
    seq(|ns|, i requires 0 <= i < |ns| => JsonArray.Num(ns[i]))
  }

  /** A list of strings written as a literal, with any whitespace after the commas, converts back to itself. */
  lemma StringArrayRoundTrip(xs: seq<string>, gap: string)
    requires forall i, k :: 0 <= i < |xs| && 0 <= k < |xs[i]| ==> xs[i][k] >= ' '
    requires JsonArray.AllWhitespace(gap)
    ensures ConvertToType(JsonArray.Render(StrItems(xs), gap), ArrayColumn(StringElem)) == Success(Strings(xs))
  {
    var items := StrItems(xs);
    forall i | 0 <= i < |items| ensures JsonArray.Renderable(items[i]) {
      assert items[i] == JsonArray.Str(xs[i]);
    }
    JsonArray.ParseArrayOfRender(items, JsonArray.StringKind, gap);
    assert StringsOf(items) == xs;
  }

  /** A list of 64-bit integers written as a literal converts back to itself. */
  lemma IntArrayRoundTrip(ns: seq<int>, gap: string)
    requires forall i :: 0 <= i < |ns| ==> JsonArray.MinInt64 <= ns[i] <= JsonArray.MaxInt64
    requires JsonArray.AllWhitespace(gap)
    ensures ConvertToType(JsonArray.Render(NumItems(ns), gap), ArrayColumn(IntElem)) == Success(Ints(ns))
  {
    var items := NumItems(ns);
    JsonArray.ParseArrayOfRender(items, JsonArray.IntKind, gap);
    assert IntsOf(items) == ns;
  }

  // The dialect's test vectors.

  /** A bare date is returned unchanged. */
  lemma DateVector()
    ensures ConvertToType("2021-01-01", TimeColumn) == Success(DateText("2021-01-01"))
  {
    assert IsDate("2021-01-01");
  }

  /** Month 99 is refused. */
  lemma InvalidDateVector()
    ensures ConvertToType("2021-99-01", TimeColumn) == Failure(ParseFailed("2021-99-01", "date", "month out of range"))
  {
    assert IsDate("2021-99-01");
  }

  /** The refusal of month 99 reads exactly as the test expects. */
  lemma InvalidDateMessage()
    ensures Message(ParseFailed("2021-99-01", "date", "month out of range")) ==
      "could not convert 2021-99-01 to date: parsing time \"2021-99-01\": month out of range"
  {
    assert Message(ParseFailed("2021-99-01", "date", "month out of range")) ==
      "could not convert " + "2021-99-01" + " to date" + ": parsing time " + "\"2021-99-01\"" + ": " + "month out of range"
    by {
      assert " to " + "date" == " to date";
      assert Quote("2021-99-01") == "\"2021-99-01\"";
    }
    InvalidDateText();
  }

  /** The pieces of the month-99 message, joined one at a time. */
  lemma InvalidDateText()
    ensures "could not convert " + "2021-99-01" + " to date" + ": parsing time " + "\"2021-99-01\"" + ": " + "month out of range"
      == "could not convert 2021-99-01 to date: parsing time \"2021-99-01\": month out of range"
  {
    assert "could not convert " + "2021-99-01" == "could not convert 2021-99-01";
    assert "could not convert 2021-99-01" + " to date" == "could not convert 2021-99-01 to date";
    assert "could not convert 2021-99-01 to date" + ": parsing time " == "could not convert 2021-99-01 to date: parsing time ";
    assert "could not convert 2021-99-01 to date: parsing time " + "\"2021-99-01\"" == "could not convert 2021-99-01 to date: parsing time \"2021-99-01\"";
    assert "could not convert 2021-99-01 to date: parsing time \"2021-99-01\"" + ": " == "could not convert 2021-99-01 to date: parsing time \"2021-99-01\": ";
    assert "could not convert 2021-99-01 to date: parsing time \"2021-99-01\": " + "month out of range" == "could not convert 2021-99-01 to date: parsing time \"2021-99-01\": month out of range";
  }

  /** The fields of the RFC 3339 spelling of 2021-01-01 midnight. */
  lemma UtcNewYearFields()
    ensures var s := "2021-01-01T00:00:00Z";
      && IsUtcDateTime(s) && !IsDate(s) && MonthInRange(s)
      && Year(s) == 2021 && Month(s) == 1 && Day(s) == 1 && Hour(s) == 0 && Minute(s) == 0 && Second(s) == 0
  {
  }

  /** The fields of the spaced spelling of 2021-01-01 midnight. */
  lemma SpacedNewYearFields()
    ensures var s := "2021-01-01 00:00:00";
      && IsSpacedDateTime(s) && !IsDate(s) && MonthInRange(s)
      && Year(s) == 2021 && Month(s) == 1 && Day(s) == 1 && Hour(s) == 0 && Minute(s) == 0 && Second(s) == 0
  {
  }

  /** The RFC 3339 spelling of 2021-01-01 midnight gives 1609459200. */
  lemma UtcDateTimeVector()
    ensures ConvertToType("2021-01-01T00:00:00Z", TimeColumn) == Success(UnixTime(1609459200))
  {
    UtcNewYearFields();
    assert EpochSeconds("2021-01-01T00:00:00Z") == 1609459200 by {
      Calendar.NewYear2021();
    }
  }

  /** The spaced spelling of 2021-01-01 midnight gives 1609459200 too. */
  lemma SpacedDateTimeVector()
    ensures ConvertToType("2021-01-01 00:00:00", TimeColumn) == Success(UnixTime(1609459200))
  {
    SpacedNewYearFields();
    assert EpochSeconds("2021-01-01 00:00:00") == 1609459200 by {
      Calendar.NewYear2021();
    }
  }

  /** The fields of the last second of 1969. */
  lemma PreEpochFields()
    ensures var s := "1969-12-31T23:59:59Z";
      && IsUtcDateTime(s) && !IsDate(s) && MonthInRange(s)
      && Year(s) == 1969 && Month(s) == 12 && Day(s) == 31 && Hour(s) == 23 && Minute(s) == 59 && Second(s) == 59
  {
  }

  /** The last second of 1969 is one second before the epoch. */
  lemma PreEpochVector()
    ensures ConvertToType("1969-12-31T23:59:59Z", TimeColumn) == Success(UnixTime(-1))
  {
    PreEpochFields();
    assert EpochSeconds("1969-12-31T23:59:59Z") == -1 by {
      Calendar.LastSecondOf1969();
    }
  }

  /** An array of times is refused whatever the value. */
  lemma TimeArrayVector()
    ensures ConvertToType("[\"\"]", ArrayColumn(TimeElem)) == Failure(UnsupportedArray("Time"))
  {
  }

  /** The refusal of an array of times reads exactly as the test expects. */
  lemma TimeArrayMessage()
    ensures Message(UnsupportedArray("Time")) == "\"Time\" is not supported as Clickhouse Array type"
  {
    assert Message(UnsupportedArray("Time")) == "\"Time\"" + " is not supported " + "as Clickhouse Array type" by {
      assert Quote("Time") == "\"Time\"";
    }
    TimeArrayText();
  }

  /** The pieces of the refusal message, joined one at a time. */
  lemma TimeArrayText()
    ensures "\"Time\"" + " is not supported " + "as Clickhouse Array type" == "\"Time\" is not supported as Clickhouse Array type"
  {
    assert "\"Time\"" + " is not supported " == "\"Time\" is not supported ";
    assert "\"Time\" is not supported " + "as Clickhouse Array type" == "\"Time\" is not supported as Clickhouse Array type";
  }

  /** The string-list test vector's items. */
  lemma FieldItems()
    ensures StrItems(["field1", "field2"]) == [JsonArray.Str("field1"), JsonArray.Str("field2")]
    ensures forall i, k :: 0 <= i < 2 && 0 <= k < |["field1", "field2"][i]| ==> ["field1", "field2"][i][k] >= ' '
  {
  }

  /** The literal of the string-list test vector, in the renderer's terms. */
  lemma StringVectorLiteral()
    ensures JsonArray.Render(StrItems(["field1", "field2"]), " ") == "[" + (Quote("field1") + "," + " " + Quote("field2")) + "]"
  {
    var items := [JsonArray.Str("field1"), JsonArray.Str("field2")];
    FieldItems();
    PlainItem("field1");
    PlainItem("field2");
    assert items[1..] == [items[1]];
  }

  /** The string-list literal, joined from its pieces. */
  lemma StringVectorText()
    ensures "[" + (Quote("field1") + "," + " " + Quote("field2")) + "]" == "[\"field1\", \"field2\"]"
  {
  }

  /** A string without quotes or backslashes renders between two quotes. */
  lemma PlainItem(x: string)
    requires forall i :: 0 <= i < |x| ==> x[i] != '"' && x[i] != '\\'
    ensures JsonArray.RenderItem(JsonArray.Str(x)) == Quote(x)
  {
    JsonArray.EscapePlain(x);
  }

  /** A double-quoted string list, with a space after the comma. */
  lemma StringArrayVector()
    ensures ConvertToType("[\"field1\", \"field2\"]", ArrayColumn(StringElem)) == Success(Strings(["field1", "field2"]))
  {
    StringVectorLiteral();
    StringVectorText();
    FieldItems();
    assert JsonArray.AllWhitespace(" ");
    StringArrayRoundTrip(["field1", "field2"], " ");
  }

  /** An integer list, with a space after the comma. */
  lemma IntArrayVector()
    ensures ConvertToType("[1, 2]", ArrayColumn(IntElem)) == Success(Ints([1, 2]))
  {
    var ns := [1, 2];
    var items := [JsonArray.Num(1), JsonArray.Num(2)];
    assert NumItems(ns) == items;
    assert JsonArray.RenderItem(items[0]) == "1" by {
      assert DigitChar(1) == '1';
    }
    assert JsonArray.RenderItem(items[1]) == "2" by {
      assert DigitChar(2) == '2';
    }
    assert JsonArray.Join(items, " ") == "1" + "," + " " + "2" by {
      assert items[1..] == [items[1]];
    }
    assert "[" + ("1" + "," + " " + "2") + "]" == "[1, 2]";
    IntArrayRoundTrip(ns, " ");
  }
}
