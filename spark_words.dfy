/**
 * The deterministic parts of SparkWordsProcessor/Program.cs: the reading-time
 * text, the stop-word test, and the loop over the collected rows that writes
 * one training row per document with a title.
 */
module SparkWords {
  import opened Wrappers
  import opened Text
  import opened Sequences
  import opened Extensions
  import opened Csv
  import opened Parsing

  /** `WordsPerMinute`. */
  const WordsPerMinute: real := 225.0

  /**
   * `ParseTime`: a reading time in minutes as text. The time is a real number
   * here; `%` on a positive double is the remainder after whole hours.
   */
  function ParseTime(time: real): string
  {
    if time <= 1.0 then "< 1 minute"
    else if time < 60.0 then IntToString(time.Floor) + " minutes"
    else
      var hours := time / 60.0;
      var leftOver := time - 60.0 * (hours.Floor as real);
      if leftOver < 1.0 then IntToString(hours.Floor) + " hours"
      else IntToString(hours.Floor) + " hours and " + IntToString(leftOver.Floor) + " minutes"
  }

  /** The text of whole hours and whole minutes, as `ParseTime` writes it from an hour on. */
  function HoursText(h: nat, m: nat): string
  {
    if m == 0 then NatToString(h) + " hours" else NatToString(h) + " hours and " + NatToString(m) + " minutes"
  }

  /**
   * What `ParseTime` says: under a minute and a bit, "< 1 minute"; under an
   * hour, the whole minutes; from an hour on, the whole minutes split into
   * hours and the minutes left over, the latter left out when there are none.
   */
  lemma ParseTimeShape(time: real)
    ensures time <= 1.0 ==> ParseTime(time) == "< 1 minute"
    ensures 1.0 < time < 60.0 ==> 1 <= time.Floor < 60 && ParseTime(time) == NatToString(time.Floor) + " minutes"
    ensures time >= 60.0 ==>
              var h := time.Floor / 60;
              var m := time.Floor % 60;
              h >= 1 && ParseTime(time) == HoursText(h, m)
  {
    if time >= 60.0 {
      var n := time.Floor;
      var h := (time / 60.0).Floor;
      var leftOver := time - 60.0 * (h as real);
      assert h as real <= time / 60.0 < h as real + 1.0;
      assert 60.0 * (h as real) <= time < 60.0 * (h as real) + 60.0;
      assert 0.0 <= leftOver < 60.0;
      var m := leftOver.Floor;
      assert m as real <= leftOver < m as real + 1.0;
      assert (60 * h + m) as real <= time < (60 * h + m) as real + 1.0;
      assert n == 60 * h + m;
      assert n / 60 == h && n % 60 == m;
      assert leftOver < 1.0 <==> m == 0;
    }
  }

  /** `CalculateReadingTime`: the word count over 225 words a minute, as text. */
  function CalculateReadingTime(count: int): string
  {
    ParseTime(count as real / WordsPerMinute)
  }

  /** The whole minutes of reading a count of words: the count over 225, rounded down. */
  lemma WholeMinutes(count: int)
    requires count >= 0
    ensures (count as real / WordsPerMinute).Floor == count / 225
  {
    var q, r := count / 225, count % 225;
    assert count as real == 225.0 * (q as real) + r as real;
    assert count as real / 225.0 == q as real + r as real / 225.0;
  }

  /**
   * Reading times by word count: up to 225 words read in under a minute;
   * below 13500 words, the whole minutes are the count over 225; from 13500
   * words on, the hours are the count over 13500 and the minutes what is
   * left over, over 225.
   */
  lemma ReadingTimeBuckets(count: int)
    ensures count <= 225 ==> CalculateReadingTime(count) == "< 1 minute"
    ensures 225 < count < 13500 ==> CalculateReadingTime(count) == NatToString(count / 225) + " minutes"
    ensures count >= 13500 ==> CalculateReadingTime(count) == HoursText(count / 13500, count % 13500 / 225)
  {
    var time := count as real / WordsPerMinute;
    ParseTimeShape(time);
    if count > 225 {
      WholeMinutes(count);
      var n := count / 225;
      assert count >= 13500 ==> n / 60 == count / 13500 && n % 60 == count % 13500 / 225;
    }
  }

  /** Two examples: an hour of reading exactly, and an hour and two minutes. */
  lemma ReadingTimeExamples()
    ensures CalculateReadingTime(13500) == "1 hours"
    ensures CalculateReadingTime(14000) == "1 hours and 2 minutes"
  {
    ReadingTimeBuckets(13500);
    ReadingTimeBuckets(14000);
    assert NatToString(1) == "1" && NatToString(2) == "2";
  }

  /** `IsStopWord`: shorter than four characters, or in the stop list. */
  predicate IsStopWord(val: string, stopWords: seq<string>)
  {
    Utf16Length(val) < 4 || val in stopWords
  }

  /** The words the `filtered` view keeps: four characters or more and not listed, in order. */
  function KeptWords(words: seq<string>, stopWords: seq<string>): (r: seq<string>)
    ensures forall w :: w in r <==> w in words && Utf16Length(w) >= 4 && w !in stopWords
  {
    Filter(w => !IsStopWord(w, stopWords), words)
  }

  /** A row of the Spark job's result, as `GetAs` reads it; a null text is "". */
  datatype CollectedRow = CollectedRow(
    file: string,
    title: string,
    subtitle1: string,
    subtitle2: string,
    subtitle3: string,
    subtitle4: string,
    subtitle5: string,
    top20Words: string,
    wordCount: int,
    readingTime: string)

  /** `ExtractWords().Trim()`. */
  function CleanField(text: string): (r: string)
    ensures |r| <= |text| + 1
  {
    Trim(ExtractWords(text))
  }

  /** The record the loop builds from a row; every field not set keeps its default. */
  function TrainingRecord(row: CollectedRow): ParseRecord
  {
    DefaultRecord.(
      file := row.file,
      title := CleanField(row.title),
      subtitle1 := CleanField(row.subtitle1),
      subtitle2 := CleanField(row.subtitle2),
      subtitle3 := CleanField(row.subtitle3),
      subtitle4 := CleanField(row.subtitle4),
      subtitle5 := CleanField(row.subtitle5),
      top20Words := CleanField(row.top20Words),
      wordCount := row.wordCount,
      readingTime := row.readingTime)
  }

  /** A row is written only when its title is not blank. */
  predicate HasTitle(row: CollectedRow)
  {
    !IsBlank(row.title)
  }

  function TrainingLine(row: CollectedRow): string
  {
    ModelData(TrainingRecord(row))
  }

  /**
   * The loop over `final.Collect()`: the lines appended to the training file,
   * one per row with a title, in row order. The progress reporting goes to
   * the console and is not part of this model.
   */
  method CollectRows(rows: seq<CollectedRow>) returns (lines: seq<string>)
    ensures lines == Map(TrainingLine, Filter(HasTitle, rows))
  {
    lines := [];
    for k := 0 to |rows|
      invariant lines == Map(TrainingLine, Filter(HasTitle, rows[..k]))
    {
      MapFilterStep(TrainingLine, HasTitle, rows, k);
      if !IsBlank(rows[k].title) {
        lines := lines + [TrainingLine(rows[k])];
      }
    }
    assert rows[..|rows|] == rows;
  }

  /** Cleaned fields hold no double quote and no comma. */
  lemma CleanFieldIsClean(text: string)
    ensures '"' !in CleanField(text) && ',' !in CleanField(text)
  {
    ExtractWordsShape(text);
    TrimAddsNothing(ExtractWords(text), '"');
    TrimAddsNothing(ExtractWords(text), ',');
  }

  /**
   * Every training line reads back as the record's values, provided the file
   * name and the reading time hold no double quote: the cleaned texts never do.
   */
  lemma TrainingLineReadsBack(row: CollectedRow)
    requires '"' !in row.file && '"' !in row.readingTime
    ensures exists line :: TrainingLine(row) == Terminate(line) &&
                           ReadFields(line) == Some(ModelValues(TrainingRecord(row)))
  {
    var r := TrainingRecord(row);
    CleanFieldIsClean(row.title);
    CleanFieldIsClean(row.subtitle1);
    CleanFieldIsClean(row.subtitle2);
    CleanFieldIsClean(row.subtitle3);
    CleanFieldIsClean(row.subtitle4);
    CleanFieldIsClean(row.subtitle5);
    CleanFieldIsClean(row.top20Words);
    TrainingValuesClean(r);
    ModelDataRoundTrip(r);
  }

  lemma TrainingValuesClean(r: ParseRecord)
    requires '"' !in r.file && '"' !in r.title && '"' !in r.subtitle1 && '"' !in r.subtitle2
    requires '"' !in r.subtitle3 && '"' !in r.subtitle4 && '"' !in r.subtitle5
    requires '"' !in r.top20Words && '"' !in r.readingTime && '"' !in r.words
    ensures forall i :: 0 <= i < 11 && i != 8 ==> '"' !in ModelValues(r)[i]
  {
    var v := ModelValues(r);
    assert v[0] == r.file && v[1] == r.title && v[2] == r.subtitle1 && v[3] == r.subtitle2;
    assert v[4] == r.subtitle3 && v[5] == r.subtitle4 && v[6] == r.subtitle5;
    assert v[7] == r.top20Words && v[9] == r.readingTime && v[10] == r.words;
  }
}
