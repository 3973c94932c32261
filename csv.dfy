/**
 * The comma-separated rows the pipeline writes, in the style of section 2 of
 * RFC 4180: fields joined by commas, each record ended by CRLF, text fields
 * wrapped in double quotes. Double quotes inside a field are not doubled (the
 * escaping rule 7 of that section is not followed), so a field holding one
 * does not read back; `ReadFields` is a reader for the rows written, used to
 * state what survives a round trip.
 */
module Csv {
  import opened Wrappers
  import opened Text

  /** `Quote`: the text between two double quotes, nothing escaped. */
  function Quote(text: string): string
  {
    "\"" + text + "\""
  }

  /** A line ended by CRLF. */
  function Terminate(line: string): (r: string)
    ensures |r| == |line| + 2 && r[..|line|] == line && r[|line|..] == "\r\n"
  {
    line + "\r\n"
  }

  /** `Row`: the columns joined by commas and ended by CRLF. */
  function Row(columns: seq<string>): string
  {
    Terminate(Join(',', columns))
  }

  /** A field as written: quoted, or bare (the decimal numbers). */
  datatype Field = Quoted(text: string) | Bare(text: string)

  function Emit(f: Field): string
  {
    match f
    case Quoted(t) => Quote(t)
    case Bare(t) => t
  }

  function Texts(fs: seq<Field>): (r: seq<string>)
    ensures |r| == |fs| && forall i :: 0 <= i < |fs| ==> r[i] == fs[i].text
  {
    seq(|fs|, i requires 0 <= i < |fs| => fs[i].text)
  }

  function Emitted(fs: seq<Field>): (r: seq<string>)
    ensures |r| == |fs| && forall i :: 0 <= i < |fs| ==> r[i] == Emit(fs[i])
  {
    seq(|fs|, i requires 0 <= i < |fs| => Emit(fs[i]))
  }

  /** The first position of `c` in `s`. */
  function IndexOf(s: string, c: char): (r: Option<nat>)
    ensures r.None? ==> c !in s
    ensures r.Some? ==> r.value < |s| && s[r.value] == c && c !in s[..r.value]
  {
    if s == [] then None
    else if s[0] == c then Some(0)
    else match IndexOf(s[1..], c)
      case None => None
      case Some(k) =>
        assert s[..k + 1] == [s[0]] + s[1..][..k];
        Some(k + 1)
  }

  /**
   * Reads the fields of a line: a field starting with a double quote runs to
   * the next double quote, which must end the line or be followed by a comma;
   * any other field runs to the next comma.
   */
  function ReadFields(s: string): Option<seq<string>>
    decreases |s|
  {
    if s != [] && s[0] == '"' then
      match IndexOf(s[1..], '"')
      case None => None
      case Some(k) =>
        var rest := s[k + 2..];
        if rest == [] then Some([s[1..k + 1]])
        else if rest[0] != ',' then None
        else match ReadFields(rest[1..])
          case None => None
          case Some(fs) => Some([s[1..k + 1]] + fs)
    else
      match IndexOf(s, ',')
      case None => Some([s])
      case Some(k) =>
        match ReadFields(s[k + 1..])
        case None => None
        case Some(fs) => Some([s[..k]] + fs)
  }

  /** A field that reads back as written: no double quote in it, and no comma in a bare one. */
  predicate Readable(f: Field)
  {
    '"' !in f.text && (f.Bare? ==> ',' !in f.text)
  }

  lemma ReadOne(f: Field, tail: Option<string>)
    requires Readable(f)
    ensures tail.None? ==> ReadFields(Emit(f)) == Some([f.text])
    ensures tail.Some? ==>
              ReadFields(Emit(f) + [','] + tail.value)
              == match ReadFields(tail.value)
                 case None => None
                 case Some(fs) => Some([f.text] + fs)
  {
    if f.Quoted? {
      ReadQuoted(f.text, tail);
    } else {
      ReadBare(f.text, tail);
    }
  }

  lemma ReadQuoted(t: string, tail: Option<string>)
    requires '"' !in t
    ensures tail.None? ==> ReadFields(Quote(t)) == Some([t])
    ensures tail.Some? ==>
              ReadFields(Quote(t) + [','] + tail.value)
              == match ReadFields(tail.value)
                 case None => None
                 case Some(fs) => Some([t] + fs)
  {
    var s := if tail.None? then Quote(t) else Quote(t) + [','] + tail.value;
    assert s[0] == '"';
    assert s[1..][..|t|] == t && s[1..][|t|] == '"';
    IndexOfFirst(s[1..], '"', |t|);
    assert s[1..|t| + 1] == t;
    if tail.Some? {
      assert s[|t| + 2..] == [','] + tail.value;
      assert s[|t| + 2..][1..] == tail.value;
    } else {
      assert s[|t| + 2..] == [];
    }
  }

  lemma ReadBare(t: string, tail: Option<string>)
    requires '"' !in t && ',' !in t
    ensures tail.None? ==> ReadFields(t) == Some([t])
    ensures tail.Some? ==>
              ReadFields(t + [','] + tail.value)
              == match ReadFields(tail.value)
                 case None => None
                 case Some(fs) => Some([t] + fs)
  {
    var s := if tail.None? then t else t + [','] + tail.value;
    if t != [] {
      assert s[0] == t[0] && t[0] in t;
    }
    if tail.Some? {
      assert s[..|t|] == t && s[|t|] == ',';
      IndexOfFirst(s, ',', |t|);
      assert s[|t| + 1..] == tail.value;
    }
  }

  /** `IndexOf` finds the first occurrence. */
  lemma {:induction false} IndexOfFirst(s: string, c: char, k: nat)
    requires k < |s| && s[k] == c && c !in s[..k]
    ensures IndexOf(s, c) == Some(k)
  {
    if k > 0 {
      assert s[..k] == [s[0]] + s[1..][..k - 1];
      IndexOfFirst(s[1..], c, k - 1);
    }
  }

  /** Fields free of double quotes (and bare ones free of commas) read back from the joined line. */
  lemma {:induction false} ReadJoinedFields(fs: seq<Field>)
    requires |fs| >= 1
    requires forall i :: 0 <= i < |fs| ==> Readable(fs[i])
    ensures ReadFields(Join(',', Emitted(fs))) == Some(Texts(fs))
  {
    UnconsFields(fs);
    if |fs| == 1 {
      ReadOne(fs[0], None);
    } else {
      ReadJoinedFields(fs[1..]);
      ReadOne(fs[0], Some(Join(',', Emitted(fs[1..]))));
    }
  }

  lemma UnconsFields(fs: seq<Field>)
    requires |fs| >= 1
    ensures Texts(fs) == [fs[0].text] + Texts(fs[1..])
    ensures |fs| == 1 ==> Join(',', Emitted(fs)) == Emit(fs[0]) && Texts(fs) == [fs[0].text]
    ensures |fs| > 1 ==> Join(',', Emitted(fs)) == Emit(fs[0]) + [','] + Join(',', Emitted(fs[1..]))
  {
    assert Emitted(fs)[1..] == Emitted(fs[1..]);
  }

  /** A row of readable fields is a line that reads back as their texts, then CRLF. */
  lemma RowReadsBack(fs: seq<Field>, values: seq<string>)
    requires |fs| >= 1 && Texts(fs) == values
    requires forall i :: 0 <= i < |fs| ==> Readable(fs[i])
    ensures exists line :: Row(Emitted(fs)) == Terminate(line) && ReadFields(line) == Some(values)
  {
    ReadJoinedFields(fs);
    assert Row(Emitted(fs)) == Terminate(Join(',', Emitted(fs)));
  }

  /** Quoted text fields without double quotes read back from the line, commas in them included. */
  lemma ReadQuotedRow(values: seq<string>)
    requires |values| >= 1
    requires forall i :: 0 <= i < |values| ==> '"' !in values[i]
    ensures ReadFields(Join(',', QuoteAll(values))) == Some(values)
  {
    var fs := seq(|values|, i requires 0 <= i < |values| => Quoted(values[i]));
    assert Emitted(fs) == QuoteAll(values);
    assert Texts(fs) == values;
    ReadJoinedFields(fs);
  }

  /** Every value quoted. */
  function QuoteAll(values: seq<string>): (r: seq<string>)
    ensures |r| == |values| && forall i :: 0 <= i < |values| ==> r[i] == Quote(values[i])
  {
    seq(|values|, i requires 0 <= i < |values| => Quote(values[i]))
  }

  /** A double quote inside a value ends the field early and the line no longer reads. */
  lemma EmbeddedQuoteBreaksRow()
    ensures ReadFields(Join(',', QuoteAll(["a\"b"]))) == None
  {
    var s := Join(',', QuoteAll(["a\"b"]));
    assert s == "\"a\"b\"";
    assert IndexOf(s[1..], '"') == Some(1);
  }

  /**
   * A row holds exactly one line break: when no column holds CR or LF, the
   * CRLF at the end is the only one.
   */
  lemma RowHasOneLineBreak(columns: seq<string>)
    requires forall i :: 0 <= i < |columns| ==> '\r' !in columns[i] && '\n' !in columns[i]
    ensures var r := Row(columns);
            |r| >= 2 && r[|r| - 2..] == "\r\n" &&
            '\r' !in r[..|r| - 2] && '\n' !in r[..|r| - 2]
  {
    JoinKeeps(columns, ',', '\r');
    JoinKeeps(columns, ',', '\n');
  }

  /** A character in none of the parts and not the separator is not in their join. */
  lemma {:induction false} JoinKeeps(parts: seq<string>, sep: char, c: char)
    requires c != sep
    requires forall i :: 0 <= i < |parts| ==> c !in parts[i]
    ensures c !in Join(sep, parts)
  {
    if |parts| > 1 {
      JoinKeeps(parts[1..], sep, c);
    }
  }
}
