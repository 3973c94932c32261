/**
 * The parse record of Common/FileDataParse.cs: the fields a markdown document
 * yields, the heading slots `AddHeading` fills from `Title` down to
 * `Subtitle5`, and the rows written for the Spark job and for model training.
 */
module Parsing {
  import opened Wrappers
  import opened Text
  import opened Sequences
  import opened Csv

  /** `GroupBy`: the columns Spark groups by. */
  const GroupBy: seq<string> :=
    ["File", "Title", "Subtitle1", "Subtitle2", "Subtitle3", "Subtitle4", "Subtitle5"]

  /** `TempHeaders` before quoting. */
  const TempHeaderNames: seq<string> := GroupBy + ["Words"]

  /** `ModelHeaders` before quoting. */
  const ModelHeaderNames: seq<string> := GroupBy + ["Top20Words", "WordCount", "ReadingTime", "Words"]

  /** The columns model training loads, by `LoadColumn` index 0 to 9 (DocMLCategorization/FileData.cs). */
  const LoadColumns: seq<string> :=
    ["File", "Title", "Subtitle1", "Subtitle2", "Subtitle3", "Subtitle4", "Subtitle5",
     "Top20Words", "WordCount", "ReadingTime"]

  /**
   * The value of a parse record. A string the source leaves null is the empty
   * string here: both are quoted as `""`. The `Score` array is not modelled.
   */
  datatype ParseRecord = ParseRecord(
    file: string,
    title: string,
    subtitle1: string,
    subtitle2: string,
    subtitle3: string,
    subtitle4: string,
    subtitle5: string,
    wordCount: int,
    readingTime: string,
    top20Words: string,
    predictedLabel: uint32,
    words: string)

  /** `default(FileDataParse)`. */
  const DefaultRecord := ParseRecord("", "", "", "", "", "", "", 0, "", "", 0, "")

  /** The heading slots, `Title` then `Subtitle1` to `Subtitle5`. */
  function Slots(r: ParseRecord): seq<string>
  {
    [r.title, r.subtitle1, r.subtitle2, r.subtitle3, r.subtitle4, r.subtitle5]
  }

  /** The record with its heading slots replaced and every other field kept. */
  function WithSlots(r: ParseRecord, s: seq<string>): (q: ParseRecord)
    requires |s| == 6
    ensures Slots(q) == s
  {
    r.(title := s[0], subtitle1 := s[1], subtitle2 := s[2], subtitle3 := s[3],
       subtitle4 := s[4], subtitle5 := s[5])
  }

  // Rows.

  /** `TempDatas`: the eight values of the Spark input, all quoted. */
  function TempFields(r: ParseRecord): seq<Field>
  {
    [Quoted(r.file), Quoted(r.title), Quoted(r.subtitle1), Quoted(r.subtitle2),
     Quoted(r.subtitle3), Quoted(r.subtitle4), Quoted(r.subtitle5), Quoted(r.words)]
  }

  /** `ModelDatas`: the eleven values of the training file, `WordCount` alone unquoted. */
  function ModelFields(r: ParseRecord): seq<Field>
  {
    [Quoted(r.file), Quoted(r.title), Quoted(r.subtitle1), Quoted(r.subtitle2),
     Quoted(r.subtitle3), Quoted(r.subtitle4), Quoted(r.subtitle5), Quoted(r.top20Words),
     Bare(IntToString(r.wordCount)), Quoted(r.readingTime), Quoted(r.words)]
  }

  function TempHeader(): string
  {
    Row(QuoteAll(TempHeaderNames))
  }

  function TempData(r: ParseRecord): string
  {
    Row(Emitted(TempFields(r)))
  }

  function ModelHeader(): string
  {
    Row(QuoteAll(ModelHeaderNames))
  }

  function ModelData(r: ParseRecord): string
  {
    Row(Emitted(ModelFields(r)))
  }

  /**
   * The field a header names, looked up by name rather than by position: the
   * property `nameof` refers to, quoted as the rows quote it.
   */
  function Column(r: ParseRecord, name: string): Option<Field>
  {
    if name == "File" then Some(Quoted(r.file))
    else if name == "Title" then Some(Quoted(r.title))
    else if name == "Subtitle1" then Some(Quoted(r.subtitle1))
    else if name == "Subtitle2" then Some(Quoted(r.subtitle2))
    else if name == "Subtitle3" then Some(Quoted(r.subtitle3))
    else if name == "Subtitle4" then Some(Quoted(r.subtitle4))
    else if name == "Subtitle5" then Some(Quoted(r.subtitle5))
    else if name == "Top20Words" then Some(Quoted(r.top20Words))
    else if name == "WordCount" then Some(Bare(IntToString(r.wordCount)))
    else if name == "ReadingTime" then Some(Quoted(r.readingTime))
    else if name == "Words" then Some(Quoted(r.words))
    else None
  }

  /** Each data column holds the field its header names, in both rows. */
  lemma DataFollowsHeaders(r: ParseRecord)
    ensures |TempFields(r)| == |TempHeaderNames| == 8
    ensures forall i :: 0 <= i < 8 ==> Column(r, TempHeaderNames[i]) == Some(TempFields(r)[i])
    ensures |ModelFields(r)| == |ModelHeaderNames| == 11
    ensures forall i :: 0 <= i < 11 ==> Column(r, ModelHeaderNames[i]) == Some(ModelFields(r)[i])
  {
  }

  /** Only the word count goes unquoted in the training row. */
  lemma OnlyWordCountBare(r: ParseRecord)
    ensures forall i :: 0 <= i < 11 ==> (ModelFields(r)[i].Bare? <==> ModelHeaderNames[i] == "WordCount")
  {
  }

  /** The training header starts with the ten columns model training loads, in their order. */
  lemma ModelHeaderMatchesLoadColumns()
    ensures ModelHeaderNames[..10] == LoadColumns && ModelHeaderNames[10] == "Words"
  {
  }

  /** The values of the Spark row, unquoted. */
  function TempValues(r: ParseRecord): seq<string>
  {
    [r.file, r.title, r.subtitle1, r.subtitle2, r.subtitle3, r.subtitle4, r.subtitle5, r.words]
  }

  /** The values of the training row, the word count in decimal. */
  function ModelValues(r: ParseRecord): seq<string>
  {
    [r.file, r.title, r.subtitle1, r.subtitle2, r.subtitle3, r.subtitle4, r.subtitle5,
     r.top20Words, IntToString(r.wordCount), r.readingTime, r.words]
  }

  /**
   * When no value holds a double quote, the Spark row reads back as the
   * record's values: the missing escaping does no harm.
   */
  lemma TempDataRoundTrip(r: ParseRecord)
    requires forall i :: 0 <= i < 8 ==> '"' !in TempValues(r)[i]
    ensures exists line :: TempData(r) == Terminate(line) && ReadFields(line) == Some(TempValues(r))
  {
    RowReadsBack(TempFields(r), TempValues(r));
  }

  /** The decimal text of an integer holds no comma and no double quote. */
  lemma IntToStringIsBare(n: int)
    ensures ',' !in IntToString(n) && '"' !in IntToString(n)
  {
    var s := IntToString(n);
    if n < 0 {
      assert s == [s[0]] + s[1..];
      assert ',' !in s[1..] && '"' !in s[1..];
    }
  }

  /** The same for the training row, whose bare word count never needs quoting. */
  lemma ModelDataRoundTrip(r: ParseRecord)
    requires forall i :: 0 <= i < 11 && i != 8 ==> '"' !in ModelValues(r)[i]
    ensures exists line :: ModelData(r) == Terminate(line) && ReadFields(line) == Some(ModelValues(r))
  {
    IntToStringIsBare(r.wordCount);
    RowReadsBack(ModelFields(r), ModelValues(r));
  }

  // Heading slots.

  /** `heading.Trim().Replace("\"", string.Empty)`. */
  function Cleaned(heading: string): (r: string)
    ensures '"' !in r && |r| <= |heading|
  {
    RemoveChar(Trim(heading), '"')
  }

  /** A cleaned heading long enough to be kept. */
  predicate LongEnough(h: string)
  {
    Utf16Length(h) >= 5
  }

  /** A heading of four characters, one of them above U+FFFF, is five UTF-16 units long and kept. */
  lemma SurrogatePairCountsTwice()
    ensures |"ab\U{1F600}c"| == 4 && LongEnough("ab\U{1F600}c")
  {
  }

  /** The private slot counter together with the record. */
  datatype Filling = Filling(idx: int, record: ParseRecord)

  /** The record with heading `h` in slot `k`, as the `switch` on the counter assigns it. */
  function SetSlot(r: ParseRecord, k: int, h: string): ParseRecord
    requires 0 <= k < 6
  {
    if k == 0 then r.(title := h)
    else if k == 1 then r.(subtitle1 := h)
    else if k == 2 then r.(subtitle2 := h)
    else if k == 3 then r.(subtitle3 := h)
    else if k == 4 then r.(subtitle4 := h)
    else r.(subtitle5 := h)
  }

  /** Setting one slot changes that slot and nothing else. */
  lemma SetSlotOnlyThatSlot(r: ParseRecord, k: int, h: string)
    requires 0 <= k < 6
    ensures SetSlot(r, k, h) == WithSlots(r, Slots(r)[k := h])
  {
  }

  lemma WithSlotsTwice(r: ParseRecord, x: seq<string>, y: seq<string>)
    requires |x| == 6 && |y| == 6
    ensures WithSlots(WithSlots(r, x), y) == WithSlots(r, y)
  {
  }

  /**
   * The slot step of `AddHeading`, for a heading already cleaned: once six
   * headings are in, or when the heading is shorter than five characters,
   * nothing changes; otherwise it goes to slot `idx` and `idx` moves on. The
   * counter stays within 0..6, which is all the source ever lets it reach.
   */
  function Place(f: Filling, h: string): (g: Filling)
    requires 0 <= f.idx <= 6
    ensures f.idx <= g.idx <= 6
  {
    if f.idx > 5 || Utf16Length(h) < 5 then f
    else Filling(f.idx + 1, SetSlot(f.record, f.idx, h))
  }

  /** `AddHeading` on values: the heading is cleaned, then placed. */
  function AddHeadingTo(f: Filling, heading: string): (g: Filling)
    requires 0 <= f.idx <= 6
    ensures f.idx <= g.idx <= 6
  {
    Place(f, Cleaned(heading))
  }

  /** One `AddHeading` after another. */
  function AddHeadings(f: Filling, headings: seq<string>): (g: Filling)
    requires 0 <= f.idx <= 6
    ensures f.idx <= g.idx <= 6
  {
    if headings == [] then f
    else AddHeadingTo(AddHeadings(f, headings[..|headings| - 1]), headings[|headings| - 1])
  }

  /** The headings that are kept, cleaned, in the order given. */
  function Accepted(headings: seq<string>): seq<string>
  {
    Filter(LongEnough, Map(Cleaned, headings))
  }

  lemma AcceptedSnoc(headings: seq<string>, h: string)
    ensures Accepted(headings + [h])
            == Accepted(headings) + (if LongEnough(Cleaned(h)) then [Cleaned(h)] else [])
  {
    MapSnoc(Cleaned, headings, h);
    FilterAppend(LongEnough, Map(Cleaned, headings), [Cleaned(h)]);
    FilterSingle(LongEnough, Cleaned(h));
  }

  /** Where the counter stops: one past the last slot filled from `k` by `a`. */
  function FillEnd(k: int, a: seq<string>): int
  {
    if k + |a| < 6 then k + |a| else 6
  }

  /** Slots `s` with the free ones from `k` on filled by `a`, as many as fit. */
  function FillFrom(s: seq<string>, k: int, a: seq<string>): (r: seq<string>)
    requires |s| == 6 && 0 <= k <= 6
    ensures |r| == 6
  {
    var m := FillEnd(k, a);
    s[..k] + a[..m - k] + s[m..]
  }

  lemma FillFromNothing(s: seq<string>, k: int)
    requires |s| == 6 && 0 <= k <= 6
    ensures FillFrom(s, k, []) == s
  {
    assert s[..k] + [] + s[k..] == s;
  }

  lemma FillFromOneMore(s: seq<string>, k: int, a: seq<string>, h: string)
    requires |s| == 6 && 0 <= k && k + |a| < 6
    ensures FillFrom(s, k, a)[k + |a| := h] == FillFrom(s, k, a + [h])
  {
    var m := k + |a|;
    assert (a + [h])[..m + 1 - k] == a + [h];
    assert a[..m - k] == a;
    assert (s[..k] + a + s[m..])[m := h] == s[..k] + (a + [h]) + s[m + 1..];
  }

  lemma FillFromNoRoom(s: seq<string>, k: int, a: seq<string>, more: seq<string>)
    requires |s| == 6 && 0 <= k <= 6 && k + |a| >= 6
    ensures FillFrom(s, k, a + more) == FillFrom(s, k, a)
  {
    assert (a + more)[..6 - k] == a[..6 - k];
  }

  /**
   * Feeding headings fills the free slots in order with the kept headings,
   * cleaned, until all six are full; the slots already full and every other
   * field are left alone, and surplus headings change nothing.
   */
  lemma {:induction false} FillsInOrder(f: Filling, headings: seq<string>)
    requires 0 <= f.idx <= 6
    ensures var g := AddHeadings(f, headings);
            var a := Accepted(headings);
            g.idx == FillEnd(f.idx, a) &&
            g.record == WithSlots(f.record, FillFrom(Slots(f.record), f.idx, a))
  {
    var s, k := Slots(f.record), f.idx;
    if headings == [] {
      FillFromNothing(s, k);
    } else {
      var init, h := headings[..|headings| - 1], headings[|headings| - 1];
      assert headings == init + [h];
      FillsInOrder(f, init);
      AcceptedSnoc(init, h);
      PlaceFills(f, AddHeadings(f, init), Accepted(init), Cleaned(h));
    }
  }

  /** One step of `FillsInOrder`: placing the next cleaned heading extends the fill by it, if kept. */
  lemma PlaceFills(f: Filling, g: Filling, a: seq<string>, c: string)
    requires 0 <= f.idx <= 6
    requires g.idx == FillEnd(f.idx, a)
    requires g.record == WithSlots(f.record, FillFrom(Slots(f.record), f.idx, a))
    ensures var a' := a + (if LongEnough(c) then [c] else []);
            Place(g, c) == Filling(FillEnd(f.idx, a'), WithSlots(f.record, FillFrom(Slots(f.record), f.idx, a')))
  {
    var s, k := Slots(f.record), f.idx;
    if g.idx <= 5 && LongEnough(c) {
      FillFromOneMore(s, k, a, c);
      SetSlotOnlyThatSlot(g.record, g.idx, c);
      WithSlotsTwice(f.record, FillFrom(s, k, a), FillFrom(s, k, a + [c]));
    } else if g.idx > 5 {
      FillFromNoRoom(s, k, a, if LongEnough(c) then [c] else []);
    } else {
      assert a + [] == a;
    }
  }

  /** Every kept heading is long enough and free of double quotes. */
  lemma AcceptedAreClean(headings: seq<string>)
    ensures forall x :: x in Accepted(headings) ==> Utf16Length(x) >= 5 && '"' !in x
  {
    forall x | x in Accepted(headings) ensures Utf16Length(x) >= 5 && '"' !in x {
      var i :| 0 <= i < |headings| && Map(Cleaned, headings)[i] == x;
    }
  }

  /**
   * From the default record, the first slots hold the kept headings and the
   * rest stay empty: no slot is set while an earlier one is empty.
   */
  lemma SlotsFillFromTheTop(headings: seq<string>)
    ensures var g := AddHeadings(Filling(0, DefaultRecord), headings);
            var s := Slots(g.record);
            (forall j :: 0 <= j < g.idx ==> Utf16Length(s[j]) >= 5 && '"' !in s[j]) &&
            (forall j :: g.idx <= j < 6 ==> s[j] == "") &&
            WithSlots(g.record, Slots(DefaultRecord)) == DefaultRecord
  {
    FillsInOrder(Filling(0, DefaultRecord), headings);
    AcceptedAreClean(headings);
    var a := Accepted(headings);
    var x := FillFrom(Slots(DefaultRecord), 0, a);
    FillFromEmpty(a);
    WithSlotsTwice(DefaultRecord, x, Slots(DefaultRecord));
    assert WithSlots(DefaultRecord, Slots(DefaultRecord)) == DefaultRecord;
  }

  lemma FillFromEmpty(a: seq<string>)
    ensures var x := FillFrom(["", "", "", "", "", ""], 0, a);
            (forall j :: 0 <= j < FillEnd(0, a) ==> x[j] == a[j]) &&
            (forall j :: FillEnd(0, a) <= j < 6 ==> x[j] == "")
  {
  }

  /** With all six slots full, no further heading changes anything. */
  lemma {:induction false} FullStaysFull(f: Filling, headings: seq<string>)
    requires f.idx == 6
    ensures AddHeadings(f, headings) == f
  {
    if headings != [] {
      FullStaysFull(f, headings[..|headings| - 1]);
    }
  }

  /** `FileDataParse`: a record whose heading slots `AddHeading` fills in place. */
  class FileDataParse {
    var idx: int
    var file: string
    var title: string
    var subtitle1: string
    var subtitle2: string
    var subtitle3: string
    var subtitle4: string
    var subtitle5: string
    var wordCount: int
    var readingTime: string
    var top20Words: string
    var predictedLabel: uint32
    var words: string

    /** The slot counter never leaves 0..6. */
    ghost predicate Valid()
      reads this
    {
      0 <= idx <= 6
    }

    function Record(): ParseRecord
      reads this
    {
      ParseRecord(file, title, subtitle1, subtitle2, subtitle3, subtitle4, subtitle5,
                  wordCount, readingTime, top20Words, predictedLabel, words)
    }

    function Filled(): Filling
      reads this
    {
      Filling(idx, Record())
    }

    /** `default(FileDataParse)`. */
    constructor ()
      ensures Valid() && Filled() == Filling(0, DefaultRecord)
    {
      idx, file, title, subtitle1, subtitle2, subtitle3, subtitle4, subtitle5 := 0, "", "", "", "", "", "", "";
      wordCount, readingTime, top20Words, predictedLabel, words := 0, "", "", 0, "";
    }

    /** `AddHeading`: the next free slot receives the cleaned heading, if it is long enough. */
    method AddHeading(heading: string)
      requires Valid()
      modifies this
      ensures Valid()
      ensures Filled() == AddHeadingTo(old(Filled()), heading)
    {
      if idx > 5 {
        return;
      }
      var h := RemoveChar(Trim(heading), '"');
      if Utf16Length(h) < 5 {
        return;
      }
      var slot := idx;
      idx := idx + 1;
      SetSlotField(slot, h);
    }

    /** The `switch` on the old counter: slot `slot` receives `h`. */
    method SetSlotField(slot: int, h: string)
      requires 0 <= slot < 6
      modifies this
      ensures Record() == SetSlot(old(Record()), slot, h) && idx == old(idx)
    {
      if slot == 0 {
        title := h;
      } else if slot == 1 {
        subtitle1 := h;
      } else if slot == 2 {
        subtitle2 := h;
      } else if slot == 3 {
        subtitle3 := h;
      } else if slot == 4 {
        subtitle4 := h;
      } else {
        subtitle5 := h;
      }
    }
  }
}
