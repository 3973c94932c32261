/**
 * The markdown walk of Common/MarkdownParser.cs. The markdown library's
 * document is modelled as a tree of the block and inline kinds the walk tells
 * apart. The walk collects the document's words, in document order, and its
 * heading candidates; `Parse` keeps one candidate per text (the one at the
 * greatest level), orders the survivors by level and then by length, longest
 * first, and hands the first six to `FileDataParse.AddHeading`.
 */
module Markdown {
  import opened Wrappers
  import opened Text
  import opened Sequences
  import opened Extensions
  import opened Csv
  import opened Parsing

  /** The inline kinds of the walk; `ContainerInline` is any other inline container, a code span when `isCode`. */
  datatype Inline =
    | MarkdownLinkInline(tooltip: string, inlines: seq<Inline>)
    | ContainerInline(isCode: bool, inlines: seq<Inline>)
    | HyperlinkInline(text: string)
    | TextRunInline(text: string)
    | OtherInline

  /** The block kinds of the walk. A link reference's tooltip may be null. */
  datatype Block =
    | HeaderBlock(headerLevel: int, inlines: seq<Inline>)
    | LinkReferenceBlock(tooltip: Option<string>)
    | ListBlock(items: seq<ListItem>)
    | ParagraphBlock(inlines: seq<Inline>)
    | QuoteBlock(blocks: seq<Block>)
    | TableBlock(rows: seq<TableRow>)
    | YamlHeaderBlock(children: map<string, string>)
    | OtherBlock

  datatype ListItem = ListItem(blocks: seq<Block>)
  datatype TableRow = TableRow(cells: seq<TableCell>)
  datatype TableCell = TableCell(inlines: seq<Inline>)

  /** A heading candidate, the `(level, text)` pair of the title list. */
  datatype Title = Title(level: int, text: string)

  // The words of a document.

  /** What a text adds to the words: its extracted words, unless it is blank. */
  function TextWords(text: string): string
  {
    if IsBlank(text) then "" else ExtractWords(text)
  }

  function InlineWords(i: Inline): string
  {
    match i
    case MarkdownLinkInline(tooltip, ins) => TextWords(tooltip) + InlinesWords(ins)
    case ContainerInline(isCode, ins) => if isCode then "" else InlinesWords(ins)
    case HyperlinkInline(text) => TextWords(text)
    case TextRunInline(text) => TextWords(text)
    case OtherInline => ""
  }

  function InlinesWords(ins: seq<Inline>): string
  {
    if ins == [] then "" else InlinesWords(ins[..|ins| - 1]) + InlineWords(ins[|ins| - 1])
  }

  /** The `title` entry of YAML front matter, when it is present and not blank. */
  function YamlTitle(children: map<string, string>): Option<string>
  {
    if "title" in children && !IsBlank(children["title"]) then Some(children["title"]) else None
  }

  function BlockWords(b: Block): string
  {
    match b
    case HeaderBlock(_, ins) => InlinesWords(ins)
    case LinkReferenceBlock(tooltip) => if tooltip.Some? then ExtractWords(tooltip.value) else ""
    case ListBlock(items) => ItemsWords(items)
    case ParagraphBlock(ins) => InlinesWords(ins)
    case QuoteBlock(bs) => BlocksWords(bs)
    case TableBlock(rows) => RowsWords(rows)
    case YamlHeaderBlock(children) =>
      if YamlTitle(children).Some? then ExtractWords(YamlTitle(children).value) else ""
    case OtherBlock => ""
  }

  function BlocksWords(bs: seq<Block>): string
  {
    if bs == [] then "" else BlocksWords(bs[..|bs| - 1]) + BlockWords(bs[|bs| - 1])
  }

  /** `Items.SelectMany(item => item.Blocks)`, walked. */
  function ItemsWords(items: seq<ListItem>): string
  {
    if items == [] then "" else ItemsWords(items[..|items| - 1]) + BlocksWords(items[|items| - 1].blocks)
  }

  /** `Rows.SelectMany(r => r.Cells)`, walked. */
  function RowsWords(rows: seq<TableRow>): string
  {
    if rows == [] then "" else RowsWords(rows[..|rows| - 1]) + CellsWords(rows[|rows| - 1].cells)
  }

  /** `Cells.SelectMany(c => c.Inlines)`, walked. */
  function CellsWords(cells: seq<TableCell>): string
  {
    if cells == [] then "" else CellsWords(cells[..|cells| - 1]) + InlinesWords(cells[|cells| - 1].inlines)
  }

  // The heading candidates of a document.

  /** The position of the first text run among `ins`, if there is one. */
  function FirstTextRunAt(ins: seq<Inline>): (r: Option<nat>)
    ensures r.None? ==> forall k :: 0 <= k < |ins| ==> !ins[k].TextRunInline?
    ensures r.Some? ==> r.value < |ins| && ins[r.value].TextRunInline? &&
                        forall k :: 0 <= k < r.value ==> !ins[k].TextRunInline?
  {
    if ins == [] then None
    else if ins[0].TextRunInline? then Some(0)
    else match FirstTextRunAt(ins[1..])
      case None => None
      case Some(k) => Some(k + 1)
  }

  /** `Inlines.OfType<TextRunInline>().Select(t => t.Text).FirstOrDefault()`. */
  function FirstTextRun(ins: seq<Inline>): Option<string>
  {
    match FirstTextRunAt(ins)
    case None => None
    case Some(k) => Some(ins[k].text)
  }

  /** A header's candidate: the first text run of its own inlines, at the header's level. */
  function HeaderTitle(level: int, ins: seq<Inline>, titleTrim: string -> string): seq<Title>
  {
    var title := FirstTextRun(ins);
    if title.Some? && !IsBlank(title.value) then [Title(level, titleTrim(title.value))] else []
  }

  function BlockTitles(b: Block, titleTrim: string -> string): seq<Title>
  {
    match b
    case HeaderBlock(level, ins) => HeaderTitle(level, ins, titleTrim)
    case ListBlock(items) => ItemsTitles(items, titleTrim)
    case QuoteBlock(bs) => BlocksTitles(bs, titleTrim)
    case YamlHeaderBlock(children) =>
      if YamlTitle(children).Some? then [Title(0, titleTrim(YamlTitle(children).value))] else []
    case _ => []
  }

  function BlocksTitles(bs: seq<Block>, titleTrim: string -> string): seq<Title>
  {
    if bs == [] then [] else BlocksTitles(bs[..|bs| - 1], titleTrim) + BlockTitles(bs[|bs| - 1], titleTrim)
  }

  function ItemsTitles(items: seq<ListItem>, titleTrim: string -> string): seq<Title>
  {
    if items == [] then []
    else ItemsTitles(items[..|items| - 1], titleTrim) + BlocksTitles(items[|items| - 1].blocks, titleTrim)
  }

  // One more element of a walked sequence, appended to what was already collected.

  lemma InlinesStep(w: string, ins: seq<Inline>, k: int)
    requires 0 <= k < |ins|
    ensures w + InlinesWords(ins[..k + 1]) == (w + InlinesWords(ins[..k])) + InlineWords(ins[k])
  {
    assert ins[..k + 1][..k] == ins[..k];
  }

  lemma BlocksStep(w: string, t: seq<Title>, bs: seq<Block>, k: int, titleTrim: string -> string)
    requires 0 <= k < |bs|
    ensures w + BlocksWords(bs[..k + 1]) == (w + BlocksWords(bs[..k])) + BlockWords(bs[k])
    ensures t + BlocksTitles(bs[..k + 1], titleTrim)
            == (t + BlocksTitles(bs[..k], titleTrim)) + BlockTitles(bs[k], titleTrim)
  {
    assert bs[..k + 1][..k] == bs[..k];
  }

  lemma ItemsStep(w: string, t: seq<Title>, items: seq<ListItem>, k: int, titleTrim: string -> string)
    requires 0 <= k < |items|
    ensures w + ItemsWords(items[..k + 1]) == (w + ItemsWords(items[..k])) + BlocksWords(items[k].blocks)
    ensures t + ItemsTitles(items[..k + 1], titleTrim)
            == (t + ItemsTitles(items[..k], titleTrim)) + BlocksTitles(items[k].blocks, titleTrim)
  {
    assert items[..k + 1][..k] == items[..k];
  }

  lemma RowsStep(w: string, rows: seq<TableRow>, k: int)
    requires 0 <= k < |rows|
    ensures w + RowsWords(rows[..k + 1]) == (w + RowsWords(rows[..k])) + CellsWords(rows[k].cells)
  {
    assert rows[..k + 1][..k] == rows[..k];
  }

  lemma CellsStep(w: string, cells: seq<TableCell>, k: int)
    requires 0 <= k < |cells|
    ensures w + CellsWords(cells[..k + 1]) == (w + CellsWords(cells[..k])) + InlinesWords(cells[k].inlines)
  {
    assert cells[..k + 1][..k] == cells[..k];
  }

  /**
   * The walk's accumulators: the words builder and the title list, with the
   * markdown library's `TitleTrim`, which is not part of this model.
   */
  class Walker {
    var words: string
    var titles: seq<Title>
    const titleTrim: string -> string

    constructor (titleTrim: string -> string)
      ensures words == "" && titles == [] && this.titleTrim == titleTrim
    {
      words, titles := "", [];
      this.titleTrim := titleTrim;
    }

    /** `RecurseBlock`: appends the block's words and heading candidates. */
    method RecurseBlock(block: Block)
      modifies this
      ensures words == old(words) + BlockWords(block)
      ensures titles == old(titles) + BlockTitles(block, titleTrim)
    {
      match block
      case HeaderBlock(level, ins) =>
        var title := FirstTextRun(ins);
        if title.Some? && !IsBlank(title.value) {
          titles := titles + [Title(level, titleTrim(title.value))];
        }
        RecurseInlines(ins);
      case LinkReferenceBlock(tooltip) =>
        if tooltip.Some? {
          words := words + ExtractWords(tooltip.value);
        }
      case ListBlock(items) =>
        RecurseItems(items);
      case ParagraphBlock(ins) =>
        RecurseInlines(ins);
      case QuoteBlock(bs) =>
        RecurseBlocks(bs);
      case TableBlock(rows) =>
        RecurseRows(rows);
      case YamlHeaderBlock(children) =>
        var yTitle := YamlTitle(children);
        if yTitle.Some? {
          titles := titles + [Title(0, titleTrim(yTitle.value))];
          words := words + ExtractWords(yTitle.value);
        }
      case OtherBlock =>
    }

    /** `ForEach` over blocks. */
    method RecurseBlocks(bs: seq<Block>)
      modifies this
      ensures words == old(words) + BlocksWords(bs)
      ensures titles == old(titles) + BlocksTitles(bs, titleTrim)
    {
      ghost var w0, t0 := words, titles;
      for k := 0 to |bs|
        invariant words == w0 + BlocksWords(bs[..k])
        invariant titles == t0 + BlocksTitles(bs[..k], titleTrim)
      {
        BlocksStep(w0, t0, bs, k, titleTrim);
        RecurseBlock(bs[k]);
      }
      assert bs[..|bs|] == bs;
    }

    /** `Items.SelectMany(item => item.Blocks).ForEach(...)`. */
    method RecurseItems(items: seq<ListItem>)
      modifies this
      ensures words == old(words) + ItemsWords(items)
      ensures titles == old(titles) + ItemsTitles(items, titleTrim)
    {
      ghost var w0, t0 := words, titles;
      for k := 0 to |items|
        invariant words == w0 + ItemsWords(items[..k])
        invariant titles == t0 + ItemsTitles(items[..k], titleTrim)
      {
        ItemsStep(w0, t0, items, k, titleTrim);
        RecurseBlocks(items[k].blocks);
      }
      assert items[..|items|] == items;
    }

    /** `Rows.SelectMany(r => r.Cells).SelectMany(c => c.Inlines).ForEach(...)`: no candidates. */
    method RecurseRows(rows: seq<TableRow>)
      modifies this
      ensures words == old(words) + RowsWords(rows)
      ensures titles == old(titles)
    {
      ghost var w0 := words;
      for k := 0 to |rows|
        invariant words == w0 + RowsWords(rows[..k])
        invariant titles == old(titles)
      {
        RowsStep(w0, rows, k);
        RecurseCells(rows[k].cells);
      }
      assert rows[..|rows|] == rows;
    }

    method RecurseCells(cells: seq<TableCell>)
      modifies this
      ensures words == old(words) + CellsWords(cells)
      ensures titles == old(titles)
    {
      ghost var w0 := words;
      for k := 0 to |cells|
        invariant words == w0 + CellsWords(cells[..k])
        invariant titles == old(titles)
      {
        CellsStep(w0, cells, k);
        RecurseInlines(cells[k].inlines);
      }
      assert cells[..|cells|] == cells;
    }

    /** `RecurseInline`: appends the inline's words; inlines hold no heading candidates. */
    method RecurseInline(inline: Inline)
      modifies this
      ensures words == old(words) + InlineWords(inline)
      ensures titles == old(titles)
    {
      match inline
      case MarkdownLinkInline(tooltip, ins) =>
        if !IsBlank(tooltip) {
          words := words + ExtractWords(tooltip);
        }
        AppendTwice(old(words), TextWords(tooltip), InlinesWords(ins));
        RecurseInlines(ins);
      case ContainerInline(isCode, ins) =>
        if !isCode {
          RecurseInlines(ins);
        }
      case HyperlinkInline(text) =>
        if !IsBlank(text) {
          words := words + ExtractWords(text);
        }
      case TextRunInline(text) =>
        if !IsBlank(text) {
          words := words + ExtractWords(text);
        }
      case OtherInline =>
    }

    /** `ForEach` over inlines. */
    method RecurseInlines(ins: seq<Inline>)
      modifies this
      ensures words == old(words) + InlinesWords(ins)
      ensures titles == old(titles)
    {
      ghost var w0 := words;
      for k := 0 to |ins|
        invariant words == w0 + InlinesWords(ins[..k])
        invariant titles == old(titles)
      {
        InlinesStep(w0, ins, k);
        RecurseInline(ins[k]);
      }
      assert ins[..|ins|] == ins;
    }
  }

  // Choosing the headings.

  /** Some candidate with the same text sits at a greater level. */
  predicate Outranked(titles: seq<Title>, t: Title)
  {
    exists j :: 0 <= j < |titles| && titles[j].text == t.text && titles[j].level > t.level
  }

  /** `titles.Distinct().Where(t => !titles.Any(t2 => t2.text == t.text && t2.level > t.level))`. */
  function Survivors(titles: seq<Title>): seq<Title>
  {
    Filter(t => !Outranked(titles, t), Distinct(titles))
  }

  /** `OrderBy(t => t.level).ThenByDescending(t => t.text.Length)`. */
  predicate HeadingLe(x: Title, y: Title)
  {
    x.level < y.level || (x.level == y.level && Utf16Length(x.text) >= Utf16Length(y.text))
  }

  lemma HeadingLeTotalPreorder()
    ensures TotalPreorder(HeadingLe)
  {
  }

  /** The candidates handed to `AddHeading`, in order: the first six survivors by that order. */
  function Selected(titles: seq<Title>): seq<Title>
  {
    Take(6, SortBy(Survivors(titles), HeadingLe))
  }

  function TitleText(t: Title): string
  {
    t.text
  }

  /** No two titles share a text. */
  ghost predicate UniqueTexts(s: seq<Title>)
  {
    forall i, j :: 0 <= i < j < |s| ==> s[i].text != s[j].text
  }

  /** A title at the greatest level its text has among `titles`. */
  ghost predicate Deepest(titles: seq<Title>, t: Title)
  {
    t in titles && forall j :: 0 <= j < |titles| && titles[j].text == t.text ==> titles[j].level <= t.level
  }

  /** Every survivor is a candidate at the greatest level of its text. */
  lemma SurvivorsAreDeepest(titles: seq<Title>)
    ensures forall t :: t in Survivors(titles) ==> Deepest(titles, t)
  {
  }

  /** Every text among the candidates survives, at its greatest level. */
  lemma SurvivorsCoverTexts(titles: seq<Title>, u: Title)
    requires u in titles
    ensures exists t :: t in Survivors(titles) && t.text == u.text && t.level >= u.level
  {
    var t := DeepestOf(titles, u);
    assert t in Distinct(titles);
    assert !Outranked(titles, t);
  }

  /** A candidate with `u`'s text at the greatest level that text has. */
  lemma {:induction false} DeepestOf(titles: seq<Title>, u: Title) returns (t: Title)
    requires u in titles
    ensures Deepest(titles, t) && t.text == u.text && t.level >= u.level
  {
    var n := |titles|;
    var init, last := titles[..n - 1], titles[n - 1];
    assert titles == init + [last];
    assert forall j :: 0 <= j < n - 1 ==> titles[j] == init[j];
    if u in init {
      var d := DeepestOf(init, u);
      t := if last.text == u.text && last.level > d.level then last else d;
    } else if v :| v in init && v.text == u.text {
      var d := DeepestOf(init, v);
      t := if d.level > u.level then d else u;
    } else {
      t := u;
    }
  }

  /** Survivors with the same text are the same candidate. */
  lemma SurvivorsOnePerText(titles: seq<Title>, a: Title, b: Title)
    requires a in Survivors(titles) && b in Survivors(titles) && a.text == b.text
    ensures a == b
  {
    SurvivorsAreDeepest(titles);
    var i :| 0 <= i < |titles| && titles[i] == a;
    var j :| 0 <= j < |titles| && titles[j] == b;
  }

  /** Two candidates at different levels: only the greater survives, once. */
  lemma DeepestKept(text: string)
    ensures Survivors([Title(1, text), Title(2, text), Title(2, text)]) == [Title(2, text)]
  {
    var titles := [Title(1, text), Title(2, text), Title(2, text)];
    assert Distinct(titles[..2]) == [Title(1, text), Title(2, text)] by {
      assert titles[..2][..1] == [Title(1, text)];
      assert Distinct([Title(1, text)]) == [Title(1, text)];
    }
    assert Outranked(titles, Title(1, text)) by {
      assert titles[1].level > 1;
    }
    var p := (t: Title) => !Outranked(titles, t);
    assert Distinct(titles) == [Title(1, text), Title(2, text)];
    assert Filter(p, [Title(2, text)]) == [Title(2, text)];
  }

  /**
   * The selection: at most six survivors, one per text, each at the greatest
   * level of its text, ordered by level and then by length, longest first; a
   * survivor left out ranks after every one selected, and with six survivors
   * or fewer all of them are selected. The sort is stable: survivors of equal
   * level and length keep their order, which decides who takes the last slot.
   */
  lemma SelectionShape(titles: seq<Title>)
    ensures var r := Selected(titles);
            |r| <= 6 &&
            Sorted(r, HeadingLe) &&
            UniqueTexts(r) &&
            (forall t :: t in r ==> t in Survivors(titles) && Deepest(titles, t)) &&
            (forall t, s :: t in Survivors(titles) && t !in r && s in r ==> HeadingLe(s, t)) &&
            (|Survivors(titles)| <= 6 ==> multiset(r) == multiset(Survivors(titles)))
    ensures forall e :: EquivalentTo(SortBy(Survivors(titles), HeadingLe), e, HeadingLe)
                          == EquivalentTo(Survivors(titles), e, HeadingLe)
  {
    HeadingLeTotalPreorder();
    forall e ensures EquivalentTo(SortBy(Survivors(titles), HeadingLe), e, HeadingLe)
                       == EquivalentTo(Survivors(titles), e, HeadingLe) {
      SortByStable(Survivors(titles), e, HeadingLe);
    }
    SortBySorted(Survivors(titles), HeadingLe);
    SortByPermutation(Survivors(titles), HeadingLe);
    SelectedAreSurvivors(titles);
    SelectedUniqueTexts(titles);
    SelectedComeFirst(titles);
  }

  lemma SelectedAreSurvivors(titles: seq<Title>)
    ensures forall t :: t in SortBy(Survivors(titles), HeadingLe) ==> t in Survivors(titles)
    ensures forall t :: t in Selected(titles) ==> t in Survivors(titles) && Deepest(titles, t)
  {
    var sorted := SortBy(Survivors(titles), HeadingLe);
    SortByPermutation(Survivors(titles), HeadingLe);
    forall t | t in sorted ensures t in Survivors(titles) {
      assert t in multiset(sorted);
    }
    SurvivorsAreDeepest(titles);
  }

  lemma SelectedUniqueTexts(titles: seq<Title>)
    ensures UniqueTexts(Selected(titles))
  {
    var sv := Survivors(titles);
    var sorted := SortBy(sv, HeadingLe);
    var r := Selected(titles);
    SelectedAreSurvivors(titles);
    FilterNoDuplicates(t => !Outranked(titles, t), Distinct(titles));
    SortByNoDuplicates(sv, HeadingLe);
    forall i, j | 0 <= i < j < |r| ensures r[i].text != r[j].text {
      assert r[i] == sorted[i] && r[j] == sorted[j];
      if r[i].text == r[j].text {
        SurvivorsOnePerText(titles, r[i], r[j]);
      }
    }
  }

  lemma SelectedComeFirst(titles: seq<Title>)
    ensures forall t, s :: t in Survivors(titles) && t !in Selected(titles) && s in Selected(titles) ==> HeadingLe(s, t)
  {
    var sv := Survivors(titles);
    var sorted := SortBy(sv, HeadingLe);
    var r := Selected(titles);
    HeadingLeTotalPreorder();
    SortBySorted(sv, HeadingLe);
    SortByPermutation(sv, HeadingLe);
    forall t, s | t in sv && t !in r && s in r ensures HeadingLe(s, t) {
      assert t in multiset(sorted);
      var k :| 0 <= k < |sorted| && sorted[k] == t;
      var i :| 0 <= i < |r| && r[i] == s;
      assert k >= |r|;
      SortedPairwise(sorted, HeadingLe, i, k);
    }
  }

  // What the words hold.

  /** Free of the two characters that would break a written row. */
  predicate Clean(s: string)
  {
    '"' !in s && ',' !in s
  }

  lemma TextWordsClean(text: string)
    ensures Clean(TextWords(text))
  {
    ExtractWordsShape(text);
  }

  /** Every fragment the walk appends is extracted words, so the words hold no double quote and no comma. */
  lemma {:induction false} InlineWordsClean(i: Inline)
    ensures Clean(InlineWords(i))
  {
    match i
    case MarkdownLinkInline(tooltip, ins) =>
      TextWordsClean(tooltip);
      InlinesWordsClean(ins);
    case ContainerInline(_, ins) =>
      InlinesWordsClean(ins);
    case HyperlinkInline(text) =>
      TextWordsClean(text);
    case TextRunInline(text) =>
      TextWordsClean(text);
    case OtherInline =>
  }

  lemma {:induction false} InlinesWordsClean(ins: seq<Inline>)
    ensures Clean(InlinesWords(ins))
  {
    if ins != [] {
      InlinesWordsClean(ins[..|ins| - 1]);
      InlineWordsClean(ins[|ins| - 1]);
    }
  }

  lemma {:induction false} BlockWordsClean(b: Block)
    ensures Clean(BlockWords(b))
  {
    match b
    case HeaderBlock(_, ins) =>
      InlinesWordsClean(ins);
    case LinkReferenceBlock(tooltip) =>
      if tooltip.Some? {
        ExtractWordsShape(tooltip.value);
      }
    case ListBlock(items) =>
      ItemsWordsClean(items);
    case ParagraphBlock(ins) =>
      InlinesWordsClean(ins);
    case QuoteBlock(bs) =>
      BlocksWordsClean(bs);
    case TableBlock(rows) =>
      RowsWordsClean(rows);
    case YamlHeaderBlock(children) =>
      if YamlTitle(children).Some? {
        ExtractWordsShape(YamlTitle(children).value);
      }
    case OtherBlock =>
  }

  lemma {:induction false} BlocksWordsClean(bs: seq<Block>)
    ensures Clean(BlocksWords(bs))
  {
    if bs != [] {
      BlocksWordsClean(bs[..|bs| - 1]);
      BlockWordsClean(bs[|bs| - 1]);
    }
  }

  lemma {:induction false} ItemsWordsClean(items: seq<ListItem>)
    ensures Clean(ItemsWords(items))
  {
    if items != [] {
      ItemsWordsClean(items[..|items| - 1]);
      BlocksWordsClean(items[|items| - 1].blocks);
    }
  }

  lemma {:induction false} RowsWordsClean(rows: seq<TableRow>)
    ensures Clean(RowsWords(rows))
  {
    if rows != [] {
      RowsWordsClean(rows[..|rows| - 1]);
      CellsWordsClean(rows[|rows| - 1].cells);
    }
  }

  lemma {:induction false} CellsWordsClean(cells: seq<TableCell>)
    ensures Clean(CellsWords(cells))
  {
    if cells != [] {
      CellsWordsClean(cells[..|cells| - 1]);
      InlinesWordsClean(cells[|cells| - 1].inlines);
    }
  }

  /** Normalising whitespace adds no character that is not whitespace. */
  lemma NormalizedStaysClean(s: string)
    requires Clean(s)
    ensures Clean(NormalizedWhiteSpace(s))
  {
    NormalizedAddsNothing(s);
    assert NotWhiteSpace('"') && NotWhiteSpace(',');
  }

  // Parse.

  /** The record `Parse` starts the headings from: the file name and the normalised words. */
  function Started(filename: string, document: seq<Block>): ParseRecord
  {
    DefaultRecord.(file := filename, words := NormalizedWhiteSpace(BlocksWords(document)))
  }

  /** The heading texts `Parse` hands to `AddHeading`. */
  function HeadingTexts(document: seq<Block>, titleTrim: string -> string): seq<string>
  {
    Map(TitleText, Selected(BlocksTitles(document, titleTrim)))
  }

  /**
   * The outcome of `Parse`, as a value. `document` is the markdown library's
   * parse of `contents`, `None` when that parse throws.
   */
  function ParseResult(filename: Option<string>, contents: string, document: Option<seq<Block>>,
                       titleTrim: string -> string): Result<Filling, Exception>
  {
    if filename.None? then Failure(ArgumentNullException("filename"))
    else if contents == "" || document.None? then Success(Filling(0, DefaultRecord))
    else Success(AddHeadings(Filling(0, Started(filename.value, document.value)),
                             HeadingTexts(document.value, titleTrim)))
  }

  /**
   * A null file name throws; empty contents or a failed parse give the default
   * record; otherwise the record holds the file name and the normalised words,
   * its slots hold the selected headings that are long enough, cleaned, in
   * order from the title down, and the other slots and fields keep their
   * defaults.
   */
  lemma ParseOutcome(filename: Option<string>, contents: string, document: Option<seq<Block>>,
                     titleTrim: string -> string)
    ensures var r := ParseResult(filename, contents, document, titleTrim);
            (r.Failure? <==> filename.None?) &&
            (r.Failure? ==> r.error == ArgumentNullException("filename")) &&
            (r.Success? && (contents == "" || document.None?) ==> r.value == Filling(0, DefaultRecord))
    ensures var r := ParseResult(filename, contents, document, titleTrim);
            r.Success? && contents != "" && document.Some? ==>
              var a := Accepted(HeadingTexts(document.value, titleTrim));
              r.value.idx == FillEnd(0, a) &&
              Slots(r.value.record) == FillFrom(Slots(DefaultRecord), 0, a) &&
              WithSlots(r.value.record, Slots(DefaultRecord)) == Started(filename.value, document.value)
  {
    if filename.Some? && contents != "" && document.Some? {
      var f := Filling(0, Started(filename.value, document.value));
      FillsInOrder(f, HeadingTexts(document.value, titleTrim));
      var a := Accepted(HeadingTexts(document.value, titleTrim));
      WithSlotsTwice(f.record, FillFrom(Slots(f.record), 0, a), Slots(DefaultRecord));
    }
  }

  /**
   * A parsed record written to the temporary file reads back field by field,
   * provided the file name holds no double quote: headings lose theirs when
   * cleaned and the words never have one.
   */
  lemma ParsedRowReadsBack(filename: string, contents: string, document: seq<Block>, titleTrim: string -> string)
    requires contents != "" && '"' !in filename
    ensures var r := ParseResult(Some(filename), contents, Some(document), titleTrim);
            r.Success? &&
            exists line :: TempData(r.value.record) == Terminate(line) && ReadFields(line) == Some(TempValues(r.value.record))
  {
    var rec := ParseResult(Some(filename), contents, Some(document), titleTrim).value.record;
    var hs := HeadingTexts(document, titleTrim);
    ParseOutcome(Some(filename), contents, Some(document), titleTrim);
    BlocksWordsClean(document);
    NormalizedStaysClean(BlocksWords(document));
    AcceptedAreClean(hs);
    FilledSlotsClean(Accepted(hs));
    SlotsAreFields(rec, Started(filename, document));
    TempDataRoundTrip(rec);
  }

  /** Slots filled from empty ones with texts free of double quotes are free of them. */
  lemma FilledSlotsClean(a: seq<string>)
    requires forall x :: x in a ==> '"' !in x
    ensures forall j :: 0 <= j < 6 ==> '"' !in FillFrom(Slots(DefaultRecord), 0, a)[j]
  {
    var m := FillEnd(0, a);
    forall j | 0 <= j < 6 ensures '"' !in FillFrom(Slots(DefaultRecord), 0, a)[j] {
      if j < m {
        assert FillFrom(Slots(DefaultRecord), 0, a)[j] == a[j];
      }
    }
  }

  /** The eight values of the temporary row of a record: its file, its six slots, its words. */
  lemma SlotsAreFields(rec: ParseRecord, start: ParseRecord)
    requires WithSlots(rec, Slots(DefaultRecord)) == start
    requires forall j :: 0 <= j < 6 ==> '"' !in Slots(rec)[j]
    requires '"' !in start.file && '"' !in start.words
    ensures forall i :: 0 <= i < 8 ==> '"' !in TempValues(rec)[i]
  {
    assert rec.file == start.file && rec.words == start.words;
    var s := Slots(rec);
    assert s[0] == rec.title && s[1] == rec.subtitle1 && s[2] == rec.subtitle2;
    assert s[3] == rec.subtitle3 && s[4] == rec.subtitle4 && s[5] == rec.subtitle5;
  }

  /** The selected headings, the first `k + 1` of them, are the first `k` and one more. */
  lemma HeadingsStep(f: Filling, selected: seq<Title>, k: int)
    requires 0 <= f.idx <= 6 && 0 <= k < |selected|
    ensures AddHeadings(f, Map(TitleText, selected[..k + 1]))
            == AddHeadingTo(AddHeadings(f, Map(TitleText, selected[..k])), selected[k].text)
  {
    assert selected[..k + 1] == selected[..k] + [selected[k]];
    MapSnoc(TitleText, selected[..k], selected[k]);
    var hs := Map(TitleText, selected[..k + 1]);
    assert hs[..|hs| - 1] == Map(TitleText, selected[..k]);
  }

  /**
   * `Parse`. `contents` is "" when null; `document` is the markdown library's
   * parse of it, `None` when that parse throws.
   */
  method Parse(filename: Option<string>, contents: string, document: Option<seq<Block>>,
               titleTrim: string -> string)
    returns (r: Result<FileDataParse, Exception>)
    ensures r.Failure? ==> ParseResult(filename, contents, document, titleTrim) == Failure(r.error)
    ensures r.Success? ==> fresh(r.value) && r.value.Valid() &&
                           ParseResult(filename, contents, document, titleTrim) == Success(r.value.Filled())
  {
    var nullCheck := CheckNotNull(filename, "filename");
    if nullCheck.Some? {
      return Failure(nullCheck.value);
    }
    var result := new FileDataParse();
    if contents == "" || document.None? {
      return Success(result);
    }
    var words, titles := Walk(document.value, titleTrim);
    var normalized := NormalizeWhiteSpace(words);
    result.file, result.words := filename.value, normalized;
    AddSelected(result, Selected(titles));
    return Success(result);
  }

  /** `markdown.Blocks.ForEach(...)` with a fresh word builder and title list. */
  method Walk(document: seq<Block>, titleTrim: string -> string) returns (words: string, titles: seq<Title>)
    ensures words == BlocksWords(document)
    ensures titles == BlocksTitles(document, titleTrim)
  {
    var walker := new Walker(titleTrim);
    walker.RecurseBlocks(document);
    assert walker.words == BlocksWords(document);
    words, titles := walker.words, walker.titles;
  }

  /** `Take(6).ForEach(t => result.AddHeading(t.text))`. */
  method AddSelected(result: FileDataParse, selected: seq<Title>)
    requires result.Valid()
    modifies result
    ensures result.Valid()
    ensures result.Filled() == AddHeadings(old(result.Filled()), Map(TitleText, selected))
  {
    ghost var f := result.Filled();
    for k := 0 to |selected|
      invariant result.Valid()
      invariant result.Filled() == AddHeadings(f, Map(TitleText, selected[..k]))
    {
      HeadingsStep(f, selected, k);
      result.AddHeading(selected[k].text);
    }
    assert selected[..|selected|] == selected;
  }
}
