/**
 * The labelled record of Common/FileDataLabel.cs: a document with the cluster
 * the model assigned it, written as one comma-separated row. A text field that
 * already starts with a double quote is taken to be quoted and is written as
 * it is; any other is wrapped in double quotes.
 */
module Labels {
  import opened Wrappers
  import opened Text
  import opened Csv

  /**
   * The value of a labelled record. The source's strings are never null when
   * a row is written (`StartsWith` on null throws); the `Score` array is not
   * modelled.
   */
  datatype FileDataLabel = FileDataLabel(
    file: string,
    title: string,
    subtitle1: string,
    subtitle2: string,
    subtitle3: string,
    subtitle4: string,
    subtitle5: string,
    wordCount: int,
    readingTime: string,
    top20Words: string,
    predictedLabel: uint32)

  /** The column names of `Headers`, before quoting. */
  const HeaderNames: seq<string> :=
    ["File", "Title", "Subtitle1", "Subtitle2", "Subtitle3", "Subtitle4", "Subtitle5",
     "WordCount", "ReadingTime", "Top20Words", "PredictedLabel"]

  /** `Headers`: every name quoted, joined by commas, then CRLF. */
  function Headers(): string
  {
    Row(QuoteAll(HeaderNames))
  }

  /** The quoting rule of `Data`: a value already starting with `"` is kept, any other is quoted. */
  function QuoteUnlessQuoted(v: string): (r: string)
    ensures StartsWith(r, '"')
    ensures StartsWith(v, '"') ==> r == v
    ensures !StartsWith(v, '"') ==> r == Quote(v)
  {
    if StartsWith(v, '"') then v else Quote(v)
  }

  /** Applying the quoting rule twice is applying it once. */
  lemma QuoteUnlessQuotedIdempotent(v: string)
    ensures QuoteUnlessQuoted(QuoteUnlessQuoted(v)) == QuoteUnlessQuoted(v)
  {
  }

  /** The columns of `Data`: the seven text fields, the word count, the two texts, the label. */
  function DataColumns(l: FileDataLabel): seq<string>
  {
    [QuoteUnlessQuoted(l.file), QuoteUnlessQuoted(l.title),
     QuoteUnlessQuoted(l.subtitle1), QuoteUnlessQuoted(l.subtitle2),
     QuoteUnlessQuoted(l.subtitle3), QuoteUnlessQuoted(l.subtitle4),
     QuoteUnlessQuoted(l.subtitle5),
     IntToString(l.wordCount),
     QuoteUnlessQuoted(l.readingTime), QuoteUnlessQuoted(l.top20Words),
     NatToString(l.predictedLabel as nat)]
  }

  /** `Data`. */
  function Data(l: FileDataLabel): string
  {
    Row(DataColumns(l))
  }

  /** The column a header names, looked up by name: the property `nameof` refers to, as `Data` writes it. */
  function Column(l: FileDataLabel, name: string): Option<string>
  {
    if name == "File" then Some(QuoteUnlessQuoted(l.file))
    else if name == "Title" then Some(QuoteUnlessQuoted(l.title))
    else if name == "Subtitle1" then Some(QuoteUnlessQuoted(l.subtitle1))
    else if name == "Subtitle2" then Some(QuoteUnlessQuoted(l.subtitle2))
    else if name == "Subtitle3" then Some(QuoteUnlessQuoted(l.subtitle3))
    else if name == "Subtitle4" then Some(QuoteUnlessQuoted(l.subtitle4))
    else if name == "Subtitle5" then Some(QuoteUnlessQuoted(l.subtitle5))
    else if name == "WordCount" then Some(IntToString(l.wordCount))
    else if name == "ReadingTime" then Some(QuoteUnlessQuoted(l.readingTime))
    else if name == "Top20Words" then Some(QuoteUnlessQuoted(l.top20Words))
    else if name == "PredictedLabel" then Some(NatToString(l.predictedLabel as nat))
    else None
  }

  /** Each column of `Data` holds the field its header names; only the two numbers go unquoted. */
  lemma DataFollowsHeaders(l: FileDataLabel)
    ensures |DataColumns(l)| == |HeaderNames| == 11
    ensures forall i :: 0 <= i < 11 ==> Column(l, HeaderNames[i]) == Some(DataColumns(l)[i])
  {
  }

  /** Only the word count (column 7) and the label (column 10) go unquoted. */
  lemma OnlyNumbersUnquoted(l: FileDataLabel)
    ensures HeaderNames[7] == "WordCount" && HeaderNames[10] == "PredictedLabel"
    ensures forall i :: 0 <= i < 11 ==> (StartsWith(DataColumns(l)[i], '"') <==> i != 7 && i != 10)
  {
    DecimalIsBare(l.wordCount);
    DecimalIsBare(l.predictedLabel as int);
  }

  /** The values of a labelled record, before quoting. */
  function Values(l: FileDataLabel): seq<string>
  {
    [l.file, l.title, l.subtitle1, l.subtitle2, l.subtitle3, l.subtitle4, l.subtitle5,
     IntToString(l.wordCount), l.readingTime, l.top20Words, NatToString(l.predictedLabel as nat)]
  }

  /** The fields as `Data` writes them when no text holds a double quote. */
  function Fields(l: FileDataLabel): seq<Field>
  {
    [Quoted(l.file), Quoted(l.title), Quoted(l.subtitle1), Quoted(l.subtitle2),
     Quoted(l.subtitle3), Quoted(l.subtitle4), Quoted(l.subtitle5),
     Bare(IntToString(l.wordCount)), Quoted(l.readingTime), Quoted(l.top20Words),
     Bare(NatToString(l.predictedLabel as nat))]
  }

  /** The text fields of a labelled record. */
  function Texts(l: FileDataLabel): seq<string>
  {
    [l.file, l.title, l.subtitle1, l.subtitle2, l.subtitle3, l.subtitle4, l.subtitle5,
     l.readingTime, l.top20Words]
  }

  /** The decimal text of a number holds no comma and no double quote. */
  lemma DecimalIsBare(n: int)
    ensures ',' !in IntToString(n) && '"' !in IntToString(n)
    ensures n >= 0 ==> ',' !in NatToString(n) && '"' !in NatToString(n)
  {
    var s := IntToString(n);
    if n < 0 {
      assert s == [s[0]] + s[1..];
      assert ',' !in s[1..] && '"' !in s[1..];
    }
  }

  /**
   * When no text field holds a double quote, every one is quoted and the row
   * reads back as the record's values.
   */
  lemma DataRoundTrip(l: FileDataLabel)
    requires forall i :: 0 <= i < 9 ==> '"' !in Texts(l)[i]
    ensures Data(l) == Terminate(Join(',', DataColumns(l)))
    ensures ReadFields(Join(',', DataColumns(l))) == Some(Values(l))
  {
    FieldsReadable(l);
    QuotedWhenUnquoted(l);
    ReadJoinedFields(Fields(l));
    FieldTexts(l);
  }

  lemma FieldTexts(l: FileDataLabel)
    ensures Csv.Texts(Fields(l)) == Values(l)
  {
  }

  lemma FieldsReadable(l: FileDataLabel)
    requires forall i :: 0 <= i < 9 ==> '"' !in Texts(l)[i]
    ensures forall i :: 0 <= i < |Fields(l)| ==> Readable(Fields(l)[i])
  {
    DecimalIsBare(l.wordCount);
    DecimalIsBare(l.predictedLabel as int);
    var t := Texts(l);
    assert t[0] == l.file && t[1] == l.title && t[2] == l.subtitle1 && t[3] == l.subtitle2;
    assert t[4] == l.subtitle3 && t[5] == l.subtitle4 && t[6] == l.subtitle5;
    assert t[7] == l.readingTime && t[8] == l.top20Words;
  }

  lemma QuotedWhenUnquoted(l: FileDataLabel)
    requires forall i :: 0 <= i < 9 ==> '"' !in Texts(l)[i]
    ensures Emitted(Fields(l)) == DataColumns(l)
  {
    var t := Texts(l);
    assert t[0] == l.file && t[1] == l.title && t[2] == l.subtitle1 && t[3] == l.subtitle2;
    assert t[4] == l.subtitle3 && t[5] == l.subtitle4 && t[6] == l.subtitle5;
    assert t[7] == l.readingTime && t[8] == l.top20Words;
    QuotedWhenNoQuote(l.file);
    QuotedWhenNoQuote(l.title);
    QuotedWhenNoQuote(l.subtitle1);
    QuotedWhenNoQuote(l.subtitle2);
    QuotedWhenNoQuote(l.subtitle3);
    QuotedWhenNoQuote(l.subtitle4);
    QuotedWhenNoQuote(l.subtitle5);
    QuotedWhenNoQuote(l.readingTime);
    QuotedWhenNoQuote(l.top20Words);
  }

  lemma QuotedWhenNoQuote(v: string)
    requires '"' !in v
    ensures QuoteUnlessQuoted(v) == Quote(v)
  {
    if v != [] {
      assert v[0] in v;
    }
  }

  /**
   * A text that opens with a double quote but holds no closing one is written
   * unquoted, and the row no longer reads.
   */
  lemma HalfQuotedBreaksRow()
    ensures ReadFields(Join(',', [QuoteUnlessQuoted("\"ab")])) == None
  {
    var s := Join(',', [QuoteUnlessQuoted("\"ab")]);
    assert s == "\"ab";
    assert s[1..] == "ab";
  }

  /** With no CR or LF in its texts, a row holds one line break: the CRLF at its end. */
  lemma DataHasOneLineBreak(l: FileDataLabel)
    requires forall i :: 0 <= i < 9 ==> '\r' !in Texts(l)[i] && '\n' !in Texts(l)[i]
    ensures var r := Data(l);
            |r| >= 2 && r[|r| - 2..] == "\r\n" && '\r' !in r[..|r| - 2] && '\n' !in r[..|r| - 2]
  {
    ColumnsLack(l, '\r');
    ColumnsLack(l, '\n');
    RowHasOneLineBreak(DataColumns(l));
  }

  /** A control character in no text field is in no column. */
  lemma ColumnsLack(l: FileDataLabel, c: char)
    requires c < ' '
    requires forall i :: 0 <= i < 9 ==> c !in Texts(l)[i]
    ensures forall i :: 0 <= i < 11 ==> c !in DataColumns(l)[i]
  {
    var t := Texts(l);
    assert t[0] == l.file && t[1] == l.title && t[2] == l.subtitle1 && t[3] == l.subtitle2;
    assert t[4] == l.subtitle3 && t[5] == l.subtitle4 && t[6] == l.subtitle5;
    assert t[7] == l.readingTime && t[8] == l.top20Words;
    DecimalLacks(l.wordCount, c);
    DecimalLacks(l.predictedLabel as int, c);
  }

  /** Decimal text holds only digits and `-`. */
  lemma DecimalLacks(n: int, c: char)
    requires c < ' '
    ensures c !in IntToString(n)
    ensures n >= 0 ==> c !in NatToString(n)
  {
    var s := IntToString(n);
    if n < 0 {
      assert s == [s[0]] + s[1..];
      assert c !in s[1..];
    }
  }
}
