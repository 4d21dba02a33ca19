/**
  The fixed-width record decoder: one line of text becomes an Order, or
  the error message the decoder throws.

  Layout, in characters of the trimmed line (end exclusive):
  user id [0,10), user name [10,55), order id [55,65), product id [65,75),
  value [75,87), date [87,95).
*/
module OrderProcessing {
  import opened Wrappers
  import opened JsString
  import opened OrderModel

  const InvalidLineFormat: string := "Formato de linha inv\U{00E1}lido"
  const InvalidDateFormat: string := "Formato de data inv\U{00E1}lido"
  /** `/^0{10}$/.test(s)`: `s` is exactly ten '0' characters. */
  predicate IsTenZeros(s: string) {
    |s| == 10 && forall k :: 0 <= k < 10 ==> s[k] == '0'
  }

  /** The six fields as extracted, before the validity check. */
  datatype Fields = Fields(
    userId: string,
    userName: string,
    orderId: string,
    prodId: string,
    value: string,
    date: string)

  /** An identifier field: the leading zeros are stripped first, then the result is trimmed. */
  function KeyField(raw: string): (r: string)
  {
    Trim(StripLeadingZeros(raw))
  }

  /** The product id field: exactly ten zeros (after trimming) becomes "0" so that it is rejected. */
  function ProdField(raw: string): (r: string)
  {
    if IsTenZeros(Trim(raw)) then "0" else KeyField(raw)
  }

  /** Identifier fields, the product id included, are trimmed and no longer than their column. */
  lemma KeyFieldShape(raw: string)
    ensures |KeyField(raw)| <= |raw| && IsTrimmed(KeyField(raw))
    ensures |ProdField(raw)| <= |raw| && IsTrimmed(ProdField(raw))
  {
    TrimmedShape(StripLeadingZeros(raw));
    if IsTenZeros(Trim(raw)) {
      assert !IsWhitespace('0');
    }
  }

  lemma TrimmedShape(s: string)
    ensures |Trim(s)| <= |s| && IsTrimmed(Trim(s))
  {
  }

  /** The six raw columns of a (trimmed) line, clamped where the line is short. */
  function Columns(line: string): (raw: Fields) {
    Fields(
      Substring(line, 0, 10),
      Substring(line, 10, 55),
      Substring(line, 55, 65),
      Substring(line, 65, 75),
      Substring(line, 75, 87),
      Substring(line, 87, 95))
  }

  /** The per-field post-processing of the raw columns. */
  function Normalise(raw: Fields): (f: Fields) {
    Fields(
      KeyField(raw.userId),
      Trim(raw.userName),
      KeyField(raw.orderId),
      ProdField(raw.prodId),
      Trim(raw.value),
      Trim(raw.date))
  }

  /** Slices and normalises the six fields of a line after trimming it. */
  function ExtractFields(input: string): (f: Fields) {
    Normalise(Columns(Trim(input)))
  }

  /** Every extracted field is trimmed and fits the width of its column. */
  lemma ExtractedFieldsFit(input: string)
    ensures var f := ExtractFields(input);
      && |f.userId| <= 10 && |f.userName| <= 45 && |f.orderId| <= 10
      && |f.prodId| <= 10 && |f.value| <= 12 && |f.date| <= 8
      && IsTrimmed(f.userId) && IsTrimmed(f.userName) && IsTrimmed(f.orderId)
      && IsTrimmed(f.prodId) && IsTrimmed(f.value) && IsTrimmed(f.date)
  {
    ColumnWidths(Trim(input));
    NormalisedFit(Columns(Trim(input)));
  }

  lemma ColumnWidths(line: string)
    ensures var c := Columns(line);
      && |c.userId| <= 10 && |c.userName| <= 45 && |c.orderId| <= 10
      && |c.prodId| <= 10 && |c.value| <= 12 && |c.date| <= 8
  {
  }

  lemma NormalisedFit(c: Fields)
    requires |c.userId| <= 10 && |c.userName| <= 45 && |c.orderId| <= 10
    requires |c.prodId| <= 10 && |c.value| <= 12 && |c.date| <= 8
    ensures var f := Normalise(c);
      && |f.userId| <= 10 && |f.userName| <= 45 && |f.orderId| <= 10
      && |f.prodId| <= 10 && |f.value| <= 12 && |f.date| <= 8
      && IsTrimmed(f.userId) && IsTrimmed(f.userName) && IsTrimmed(f.orderId)
      && IsTrimmed(f.prodId) && IsTrimmed(f.value) && IsTrimmed(f.date)
  {
    KeyFieldShape(c.userId);
    KeyFieldShape(c.orderId);
    KeyFieldShape(c.prodId);
    TrimmedShape(c.userName);
    TrimmedShape(c.value);
    TrimmedShape(c.date);
  }

  /** The guard of the decoder: every field non-empty, and the product id not "0". */
  predicate LineFormatOk(f: Fields) {
    f.userId != [] && f.userName != [] && f.orderId != [] &&
    f.prodId != [] && f.value != [] && f.date != [] &&
    f.prodId != "0"
  }

  /** `formatDecimal`: the first ',' becomes '.', every other character stays. */
  function FormatDecimal(value: string): (r: string)
    ensures |r| == |value|
    ensures ',' !in value ==> r == value
    ensures forall k :: 0 <= k < |value| ==>
      r[k] == (if k == IndexOf(value, ',') then '.' else value[k])
  {
    ReplaceFirst(value, ',', '.')
  }

  /** A date as `formatDate` produces it: ten characters with '-' at positions 4 and 7. */
  predicate IsDashedDate(d: string) {
    |d| == 10 && d[4] == '-' && d[7] == '-'
  }

  /** The eight source characters of a dashed date. */
  function Undashed(d: string): (r: string)
    requires IsDashedDate(d)
    ensures |r| == 8
  {
    d[..4] + d[5..7] + d[8..]
  }

  /** `formatDate`: `YYYYMMDD` becomes `YYYY-MM-DD`; any other length is an error. */
  function FormatDate(date: string): (r: Result<string, string>)
    ensures r.Failure? <==> |date| != 8
    ensures r.Failure? ==> r.error == InvalidDateFormat
    ensures r.Success? ==> IsDashedDate(r.value) && Undashed(r.value) == date
  {
    if |date| != 8 then Failure(InvalidDateFormat)
    else
      var d := date[..4] + "-" + date[4..6] + "-" + date[6..];
      assert d[..4] + d[5..7] + d[8..] == date;
      Success(d)
  }

  /** What every accepted order looks like. */
  predicate WellShaped(o: Order) {
    o.userId != [] && o.userName != [] && o.orderId != [] &&
    o.prodId != [] && o.prodId != "0" && o.value != [] &&
    IsDashedDate(o.date)
  }

  /** `processString`: decodes one line. */
  function Decode(input: string): (r: Result<Order, string>)
    ensures r == Failure(InvalidLineFormat) <==> !LineFormatOk(ExtractFields(input))
    ensures r == Failure(InvalidDateFormat) <==>
      LineFormatOk(ExtractFields(input)) && |ExtractFields(input).date| != 8
    ensures r.Failure? ==> r.error == InvalidLineFormat || r.error == InvalidDateFormat
    ensures r.Success? ==> WellShaped(r.value)
  {
    var f := ExtractFields(input);
    if !LineFormatOk(f) then Failure(InvalidLineFormat)
    else
      match FormatDate(f.date)
      case Failure(e) => Failure(e)
      case Success(d) => Success(Order(f.userId, f.userName, f.orderId, f.prodId, FormatDecimal(f.value), d))
  }

  // ----- Properties of the decoder -----

  /** On success, each field of the order is the normalised slice of the trimmed line. */
  lemma DecodedFields(input: string)
    requires Decode(input).Success?
    ensures var o, line := Decode(input).value, Trim(input);
      && o.userId == Trim(StripLeadingZeros(Substring(line, 0, 10)))
      && o.userName == Trim(Substring(line, 10, 55))
      && o.orderId == Trim(StripLeadingZeros(Substring(line, 55, 65)))
      && o.prodId == Trim(StripLeadingZeros(Substring(line, 65, 75)))
      && o.value == FormatDecimal(Trim(Substring(line, 75, 87)))
      && Undashed(o.date) == Trim(Substring(line, 87, 95))
  {
    var c := Columns(Trim(input));
    var f := Normalise(c);
    assert ExtractFields(input) == f;
    assert LineFormatOk(f);
    assert !IsTenZeros(Trim(c.prodId));
  }

  /** A line with any field empty after normalisation is a line-format error. */
  lemma EmptyFieldRejected(input: string)
    requires var f := ExtractFields(input);
      f.userId == [] || f.userName == [] || f.orderId == [] ||
      f.prodId == [] || f.value == [] || f.date == []
    ensures Decode(input) == Failure(InvalidLineFormat)
  {
  }

  /** A product id field of exactly ten zeros is a line-format error, whatever the other fields hold. */
  lemma TenZeroProductRejected(input: string)
    requires IsTenZeros(Trim(Substring(Trim(input), 65, 75)))
    ensures Decode(input) == Failure(InvalidLineFormat)
  {
  }

  /**
    A line whose trimmed text stops before the date column yields an empty
    (clamped) date field and is a line-format error; slicing never fails.
  */
  lemma ShortLineRejected(input: string)
    requires |Trim(input)| <= 87
    ensures Decode(input) == Failure(InvalidLineFormat)
  {
  }

  /**
    A trimmed line that reaches into the date column but not to its end
    has a short, non-empty date: when the other fields pass the guard, it
    is a date-format error, not a line-format error.
  */
  lemma ShortDateIsDateError(input: string)
    requires 87 < |Trim(input)| < 95
    requires var f := ExtractFields(input);
      f.userId != [] && f.userName != [] && f.orderId != [] &&
      f.prodId != [] && f.prodId != "0" && f.value != []
    ensures Decode(input) == Failure(InvalidDateFormat)
  {
    var line := Trim(input);
    var raw := Substring(line, 87, 95);
    assert raw == line[87..];
    assert raw[|raw| - 1] == line[|line| - 1];
    var date := Trim(raw);
    assert date != [] && |date| < 8;
    var f := Normalise(Columns(line));
    assert ExtractFields(input) == f && f.date == date;
    assert LineFormatOk(f);
  }

  /** Only the trimmed line matters. */
  lemma DecodeIgnoresSurroundingWhitespace(input: string)
    ensures Decode(Trim(input)) == Decode(input)
  {
    TrimIdempotent(input);
  }

  /**
    Zeros are stripped before trimming, so an identifier field that starts
    with whitespace keeps its leading zeros.
  */
  lemma WhitespaceShieldsZeros(raw: string)
    requires raw != [] && IsWhitespace(raw[0])
    ensures KeyField(raw) == Trim(raw)
  {
  }

  /**
    The ten-zero test is the only all-zero check on the product column. A
    column of zeros with a run of spaces inside or in front keeps the zeros
    after the spaces: it is rejected only when that leaves "" or "0", and
    with two or more zeros after the spaces it gets past the guard with a
    product id made only of zeros.
  */
  lemma ProductZerosAroundSpaces(lead: nat, spaces: nat, zeros: nat)
    requires spaces >= 1 && lead + spaces + zeros == 10
    ensures var raw := Repeat('0', lead) + Repeat(' ', spaces) + Repeat('0', zeros);
      && ProdField(raw) == Repeat('0', zeros)
      && (ProdField(raw) != [] && ProdField(raw) != "0" <==> zeros >= 2)
  {
    var raw := Repeat('0', lead) + Repeat(' ', spaces) + Repeat('0', zeros);
    KeyFieldAroundSpaces(lead, spaces, zeros);
    assert raw[lead] == ' ';
    SpaceNotTenZeros(raw, lead);
    if zeros == 1 {
      assert Repeat('0', zeros) == "0";
    }
  }

  lemma KeyFieldAroundSpaces(lead: nat, spaces: nat, zeros: nat)
    requires spaces >= 1
    ensures KeyField(Repeat('0', lead) + Repeat(' ', spaces) + Repeat('0', zeros)) == Repeat('0', zeros)
  {
    var sz := Repeat(' ', spaces) + Repeat('0', zeros);
    assert sz[0] == ' ';
    StripLeadingZerosPadded(lead, sz);
    assert Repeat('0', lead) + Repeat(' ', spaces) + Repeat('0', zeros) == Repeat('0', lead) + sz;
    TrimSpacesThenZeros(spaces, zeros);
  }

  lemma TrimSpacesThenZeros(spaces: nat, zeros: nat)
    ensures Trim(Repeat(' ', spaces) + Repeat('0', zeros)) == Repeat('0', zeros)
  {
    var sp, z := Repeat(' ', spaces), Repeat('0', zeros);
    assert forall k :: 0 <= k < |sp| ==> IsWhitespace(sp[k]);
    if zeros > 0 {
      assert z[0] == '0' && z[|z| - 1] == '0';
      TrimPadded(sp, z);
    } else {
      assert sp + z == sp;
    }
  }

  /** A ten-character column with a space in it does not trim to ten zeros. */
  lemma SpaceNotTenZeros(raw: string, i: nat)
    requires |raw| == 10 && i < 10 && raw[i] == ' '
    ensures !IsTenZeros(Trim(raw))
  {
    TrimFullLength(raw);
    if |Trim(raw)| == 10 {
      assert Trim(raw)[i] == ' ';
    }
  }

  // ----- Encoding: the inverse of the decoder on well-formed orders -----

  /** `s` padded on the left with `c` to `width` characters. */
  function PadStart(s: string, width: nat, c: char): (r: string)
    requires |s| <= width
    ensures |r| == width
  {
    Repeat(c, width - |s|) + s
  }

  /** A value that fits its column and survives the decoder's normalisation unchanged. */
  predicate FitsText(s: string, width: nat) {
    s != [] && |s| <= width && IsTrimmed(s)
  }

  /** An identifier that fits its column and has no leading zero to lose. */
  predicate FitsKey(s: string, width: nat) {
    FitsText(s, width) && s[0] != '0'
  }

  /** The orders that have a fixed-width line decoding to them. */
  predicate Encodable(o: Order) {
    && FitsKey(o.userId, 10)
    && FitsText(o.userName, 45)
    && FitsKey(o.orderId, 10)
    && FitsKey(o.prodId, 10)
    && FitsText(o.value, 12) && ',' !in o.value
    && IsDashedDate(o.date) && IsTrimmed(Undashed(o.date))
  }

  /** The fixed-width line of an order: identifiers zero-padded, texts space-padded. */
  function Encode(o: Order): (line: string)
    requires Encodable(o)
    ensures |line| == 95
  {
    PadStart(o.userId, 10, '0') + PadStart(o.userName, 45, ' ') +
    PadStart(o.orderId, 10, '0') + PadStart(o.prodId, 10, '0') +
    PadStart(o.value, 12, ' ') + Undashed(o.date)
  }

  lemma KeyFieldOfPadded(s: string, width: nat)
    requires FitsKey(s, width)
    ensures KeyField(PadStart(s, width, '0')) == s
  {
    var zeros := Repeat('0', width - |s|);
    assert PadStart(s, width, '0') == zeros + s;
    StripLeadingZerosPadded(width - |s|, s);
    assert StripLeadingZeros(zeros + s) == s;
    TrimOfTrimmed(s);
  }

  lemma TrimOfPadded(s: string, width: nat)
    requires FitsText(s, width)
    ensures Trim(PadStart(s, width, ' ')) == s
  {
    var pad := Repeat(' ', width - |s|);
    TrimPadded(pad, s);
    assert pad + s == PadStart(s, width, ' ');
  }

  lemma DashedOfUndashed(d: string)
    requires IsDashedDate(d)
    ensures FormatDate(Undashed(d)) == Success(d)
  {
    var u := Undashed(d);
    assert u[..4] + "-" + u[4..6] + "-" + u[6..] == d;
  }

  lemma SixSlices(a: string, b: string, c: string, d: string, e: string, g: string)
    requires |a| == 10 && |b| == 45 && |c| == 10 && |d| == 10 && |e| == 12 && |g| == 8
    ensures var line := a + b + c + d + e + g;
      && line[0..10] == a && line[10..55] == b && line[55..65] == c
      && line[65..75] == d && line[75..87] == e && line[87..95] == g
  {
    var line := a + b + c + d + e + g;
    assert line[0..10] == a;
    assert line[10..55] == b;
    assert line[55..65] == c;
    assert line[65..75] == d;
    assert line[75..87] == e;
    assert line[87..95] == g;
  }

  /** The six columns of the line of an encodable order. */
  lemma EncodeColumns(o: Order)
    requires Encodable(o)
    ensures Columns(Encode(o)) == Fields(
      PadStart(o.userId, 10, '0'), PadStart(o.userName, 45, ' '),
      PadStart(o.orderId, 10, '0'), PadStart(o.prodId, 10, '0'),
      PadStart(o.value, 12, ' '), Undashed(o.date))
  {
    SixSlices(PadStart(o.userId, 10, '0'), PadStart(o.userName, 45, ' '),
              PadStart(o.orderId, 10, '0'), PadStart(o.prodId, 10, '0'),
              PadStart(o.value, 12, ' '), Undashed(o.date));
  }

  /** The line of an encodable order has no surrounding whitespace. */
  lemma EncodeIsTrimmed(o: Order)
    requires Encodable(o)
    ensures Trim(Encode(o)) == Encode(o)
  {
    var line := Encode(o);
    SixSlices(PadStart(o.userId, 10, '0'), PadStart(o.userName, 45, ' '),
              PadStart(o.orderId, 10, '0'), PadStart(o.prodId, 10, '0'),
              PadStart(o.value, 12, ' '), Undashed(o.date));
    assert line[0] == PadStart(o.userId, 10, '0')[0];
    assert line[94] == Undashed(o.date)[7];
    TrimOfTrimmed(line);
  }

  lemma PaddedKeyIsTrimmed(s: string, width: nat)
    requires FitsKey(s, width)
    ensures IsTrimmed(PadStart(s, width, '0'))
  {
    var d := PadStart(s, width, '0');
    assert d[|d| - 1] == s[|s| - 1];
    if |s| < width { assert d[0] == '0'; } else { assert d[0] == s[0]; }
  }

  /** A zero-padded product id is not ten zeros. */
  lemma PaddedKeyNotTenZeros(s: string)
    requires FitsKey(s, 10)
    ensures !IsTenZeros(PadStart(s, 10, '0'))
  {
    var d := PadStart(s, 10, '0');
    assert d[10 - |s|] == s[0];
  }

  lemma PaddedProdNotTenZeros(s: string)
    requires FitsKey(s, 10)
    ensures !IsTenZeros(Trim(PadStart(s, 10, '0')))
  {
    PaddedKeyIsTrimmed(s, 10);
    TrimOfTrimmed(PadStart(s, 10, '0'));
    PaddedKeyNotTenZeros(s);
  }

  /** So a zero-padded product id decodes to itself. */
  lemma PaddedProdField(s: string)
    requires FitsKey(s, 10)
    ensures ProdField(PadStart(s, 10, '0')) == s
  {
    PaddedProdNotTenZeros(s);
    KeyFieldOfPadded(s, 10);
  }

  /** Normalising the padded columns of an encodable order gives its fields back. */
  lemma NormalisePadded(o: Order)
    requires Encodable(o)
    ensures Normalise(Fields(
      PadStart(o.userId, 10, '0'), PadStart(o.userName, 45, ' '),
      PadStart(o.orderId, 10, '0'), PadStart(o.prodId, 10, '0'),
      PadStart(o.value, 12, ' '), Undashed(o.date)))
      == Fields(o.userId, o.userName, o.orderId, o.prodId, o.value, Undashed(o.date))
  {
    KeyFieldOfPadded(o.userId, 10);
    TrimOfPadded(o.userName, 45);
    KeyFieldOfPadded(o.orderId, 10);
    PaddedProdField(o.prodId);
    TrimOfPadded(o.value, 12);
    TrimOfTrimmed(Undashed(o.date));
  }

  /** The fields extracted from the line of an encodable order are its own. */
  lemma ExtractFieldsOfEncode(o: Order)
    requires Encodable(o)
    ensures ExtractFields(Encode(o)) == Fields(o.userId, o.userName, o.orderId, o.prodId, o.value, Undashed(o.date))
  {
    EncodeIsTrimmed(o);
    EncodeColumns(o);
    NormalisePadded(o);
  }

  /** Decoding the line of an encodable order gives the order back. */
  lemma {:induction false} DecodeEncode(o: Order)
    requires Encodable(o)
    ensures Decode(Encode(o)) == Success(o)
  {
    ExtractFieldsOfEncode(o);
    DashedOfUndashed(o.date);
  }

  /** The order of the first sample line of the decoder's own test suite. */
  function SampleOrder(): (o: Order) {
    Order("83", "Frances Satterfield", "791", "6", "224.75", "2021-11-22")
  }

  lemma SampleEncodable()
    ensures Encodable(SampleOrder())
  {
  }

  lemma SampleEncodes()
    ensures Encodable(SampleOrder()) &&
      Encode(SampleOrder()) == "0000000083" + Repeat(' ', 26) + "Frances Satterfield" + "0000000791" +
         "0000000006" + "      224.75" + "20211122"
  {
    SampleEncodable();
    SampleColumns();
  }

  /** The six columns of the sample order's line. */
  lemma SampleColumns()
    ensures var o := SampleOrder();
      && PadStart(o.userId, 10, '0') == "0000000083"
      && PadStart(o.userName, 45, ' ') == Repeat(' ', 26) + o.userName
      && PadStart(o.orderId, 10, '0') == "0000000791"
      && PadStart(o.prodId, 10, '0') == "0000000006"
      && PadStart(o.value, 12, ' ') == "      224.75"
      && Undashed(o.date) == "20211122"
  {
    ZeroPadded("83", "0000000083");
    ZeroPadded("791", "0000000791");
    ZeroPadded("6", "0000000006");
    assert Repeat(' ', 6) == "      ";
  }

  lemma ZeroPadded(s: string, padded: string)
    requires |s| <= 10 && |padded| == 10
    requires padded[10 - |s|..] == s && forall k :: 0 <= k < 10 - |s| ==> padded[k] == '0'
    ensures PadStart(s, 10, '0') == padded
  {
    assert PadStart(s, 10, '0') == Repeat('0', 10 - |s|) + s;
  }

  /**
    That sample line, written as its six columns, decodes to that order:
    user 83, "Frances Satterfield", order 791, product 6, value 224.75,
    dated 2021-11-22.
  */
  lemma SampleLine()
    ensures Decode("0000000083" + Repeat(' ', 26) + "Frances Satterfield" + "0000000791" +
         "0000000006" + "      224.75" + "20211122")
         == Success(SampleOrder())
  {
    SampleEncodes();
    DecodeEncode(SampleOrder());
  }
}
