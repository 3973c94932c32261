/**
 * The categorization run of DocMLCategorization/Program.cs: the choice of a
 * cluster count from the average distances KMeans reaches with each count,
 * then, over the labelled rows, the titles grouped by label, each row's words
 * fed into its cluster's word matrix, the rows written out, and the summary
 * text listing every cluster with its title and its documents.
 *
 * KMeans and the featurization are not modelled: the average distance of each
 * cluster count is a parameter, and the labelled rows are the input.
 */
module Categorization {
  import opened Wrappers
  import opened Text
  import opened Sequences
  import opened WordCounting
  import opened Categories
  import opened Labels

  /** The fewest and the most clusters tried. */
  const LowCategory: int := 2
  const HighCategory: int := 20

  /** One entry of `distances`: a cluster count and the average distance reached with it. */
  datatype Trial = Trial(categories: int, distance: real)

  /** `OrderBy(d => d.Value)`. */
  predicate ByDistance(x: Trial, y: Trial)
  {
    x.distance <= y.distance
  }

  lemma ByDistanceTotalPreorder()
    ensures TotalPreorder(ByDistance)
  {
  }

  /** The first `n` entries the loop adds: one per count from `LowCategory` up, in that order. */
  function Trials(averageDistance: int -> real, n: nat): (r: seq<Trial>)
    ensures |r| == n
  {
    seq(n, i requires 0 <= i < n => Trial(LowCategory + i, averageDistance(LowCategory + i)))
  }

  /** `distances.OrderBy(d => d.Value).First().Key` once every count has been tried. */
  function Closest(averageDistance: int -> real): int
  {
    SortBy(Trials(averageDistance, HighCategory - LowCategory + 1), ByDistance)[0].categories
  }

  /**
   * The chosen count is one of those tried, no other reaches a smaller
   * average distance, and every smaller count reaches a larger one: on a tie
   * the smallest count wins, because the counts are added in ascending order
   * and the sort is stable.
   */
  lemma ClosestIsLeastDistance(averageDistance: int -> real)
    ensures var c := Closest(averageDistance);
            LowCategory <= c <= HighCategory &&
            (forall k :: LowCategory <= k <= HighCategory ==> averageDistance(c) <= averageDistance(k)) &&
            (forall k :: LowCategory <= k < c ==> averageDistance(c) < averageDistance(k))
  {
    var s := Trials(averageDistance, HighCategory - LowCategory + 1);
    var h := ClosestTried(averageDistance);
    forall k | LowCategory <= k <= HighCategory
      ensures averageDistance(h.categories) <= averageDistance(k)
    {
      ClosestBeatsAll(averageDistance, k);
    }
    forall k | LowCategory <= k < h.categories
      ensures averageDistance(h.categories) < averageDistance(k)
    {
      ClosestBeatsSmaller(averageDistance, k);
    }
  }

  /** The head of the sorted entries is an entry: some count tried, with its distance. */
  lemma ClosestTried(averageDistance: int -> real) returns (h: Trial)
    ensures h == SortBy(Trials(averageDistance, HighCategory - LowCategory + 1), ByDistance)[0]
    ensures h.categories == Closest(averageDistance)
    ensures LowCategory <= h.categories <= HighCategory
    ensures h.distance == averageDistance(h.categories)
  {
    var s := Trials(averageDistance, HighCategory - LowCategory + 1);
    h := SortBy(s, ByDistance)[0];
    SortByPermutation(s, ByDistance);
    assert h in multiset(s);
    var i :| 0 <= i < |s| && s[i] == h;
  }

  lemma ClosestBeatsAll(averageDistance: int -> real, k: int)
    requires LowCategory <= k <= HighCategory
    ensures averageDistance(Closest(averageDistance)) <= averageDistance(k)
  {
    var s := Trials(averageDistance, HighCategory - LowCategory + 1);
    var h := ClosestTried(averageDistance);
    ByDistanceTotalPreorder();
    SortByFirst(s, ByDistance);
    assert s[k - LowCategory] in s;
  }

  lemma ClosestBeatsSmaller(averageDistance: int -> real, k: int)
    requires LowCategory <= k < Closest(averageDistance)
    ensures averageDistance(Closest(averageDistance)) < averageDistance(k)
  {
    var s := Trials(averageDistance, HighCategory - LowCategory + 1);
    var h := ClosestTried(averageDistance);
    ByDistanceTotalPreorder();
    SortByFirst(s, ByDistance);
    var y := s[k - LowCategory];
    if averageDistance(k) <= averageDistance(h.categories) {
      assert Equivalent(ByDistance, y, h);
      var j := FilterFirst(y => Equivalent(ByDistance, y, h), s, k - LowCategory);
      assert false;
    }
  }

  /**
   * The loop over cluster counts: one entry per count from 2 to 20, then the
   * count of the entry with the least average distance.
   */
  method ChooseClusterCount(averageDistance: int -> real) returns (categoriesToUse: int)
    ensures categoriesToUse == Closest(averageDistance)
    ensures LowCategory <= categoriesToUse <= HighCategory
    ensures forall k :: LowCategory <= k <= HighCategory ==>
              averageDistance(categoriesToUse) <= averageDistance(k)
    ensures forall k :: LowCategory <= k < categoriesToUse ==>
              averageDistance(categoriesToUse) < averageDistance(k)
  {
    var distances: seq<Trial> := [];
    for categories := LowCategory to HighCategory + 1
      invariant distances == Trials(averageDistance, categories - LowCategory)
    {
      distances := distances + [Trial(categories, averageDistance(categories))];
    }
    categoriesToUse := SortBy(distances, ByDistance)[0].categories;
    ClosestIsLeastDistance(averageDistance);
  }

  function Label(row: FileDataLabel): uint32
  {
    row.predictedLabel
  }

  function TitleOf(row: FileDataLabel): string
  {
    row.title
  }

  /** The rows the model put in cluster `c`. */
  function InCategory(c: uint32): FileDataLabel -> bool
  {
    (row: FileDataLabel) => row.predictedLabel == c
  }

  /** `summary` after the rows: each label seen, with the titles of its rows appended in row order. */
  function Grouped(rows: seq<FileDataLabel>): map<uint32, seq<string>>
  {
    if rows == [] then map[] else WithTitle(Grouped(rows[..|rows| - 1]), rows[|rows| - 1])
  }

  /** `summary` once a row's title is appended to its label's list, the list created when missing. */
  function WithTitle(summary: map<uint32, seq<string>>, row: FileDataLabel): map<uint32, seq<string>>
  {
    var titles := if row.predictedLabel in summary then summary[row.predictedLabel] else [];
    summary[row.predictedLabel := titles + [row.title]]
  }

  /** What one more row does to each of the values the loop over the rows builds. */
  lemma CategorizeStep(tallies: map<uint32, Tally>, rows: seq<FileDataLabel>, i: int)
    requires 0 <= i < |rows|
    ensures Grouped(rows[..i + 1]) == WithTitle(Grouped(rows[..i]), rows[i])
    ensures Distinct(Map(Label, rows[..i + 1]))
            == if rows[i].predictedLabel in Grouped(rows[..i]) then Distinct(Map(Label, rows[..i]))
               else Distinct(Map(Label, rows[..i])) + [rows[i].predictedLabel]
    ensures Map(Data, rows[..i + 1]) == Map(Data, rows[..i]) + [Data(rows[i])]
    ensures Fed(tallies, rows[..i + 1]) == FedRow(Fed(tallies, rows[..i]), rows[i])
  {
    var init, row := rows[..i], rows[i];
    assert rows[..i + 1] == init + [row];
    assert (init + [row])[..i] == init;
    GroupedKeys(init);
    MapSnoc(Label, init, row);
    DistinctSnoc(Map(Label, init), row.predictedLabel);
    MapSnoc(Data, init, row);
  }

  /** The labels of `summary` are exactly the labels of the rows. */
  lemma {:induction false} GroupedKeys(rows: seq<FileDataLabel>)
    ensures forall c :: c in Grouped(rows) <==> c in Map(Label, rows)
  {
    if rows != [] {
      var init, row := rows[..|rows| - 1], rows[|rows| - 1];
      assert rows == init + [row];
      GroupedKeys(init);
      MapSnoc(Label, init, row);
    }
  }

  /** Each label of `summary` maps to the titles of its rows, in row order. */
  lemma {:induction false} GroupedTitles(rows: seq<FileDataLabel>, c: uint32)
    requires c in Grouped(rows)
    ensures Grouped(rows)[c] == Map(TitleOf, Filter(InCategory(c), rows))
  {
    var init, row := rows[..|rows| - 1], rows[|rows| - 1];
    assert rows == init + [row];
    var before := Filter(InCategory(c), init);
    var prior := if c in Grouped(init) then Grouped(init)[c] else [];
    FilterAppend(InCategory(c), init, [row]);
    FilterSingle(InCategory(c), row);
    GroupedKeys(init);
    if c in Grouped(init) {
      GroupedTitles(init, c);
    } else {
      NoneInCategory(init, c);
    }
    assert prior == Map(TitleOf, before);
    if c == row.predictedLabel {
      assert Filter(InCategory(c), rows) == before + [row];
      MapSnoc(TitleOf, before, row);
      assert Grouped(rows)[c] == prior + [row.title];
    } else {
      assert Filter(InCategory(c), rows) == before + [];
      assert Grouped(rows)[c] == prior;
    }
  }

  /** No row falls in a cluster no row names. */
  lemma NoneInCategory(rows: seq<FileDataLabel>, c: uint32)
    requires c !in Map(Label, rows)
    ensures Filter(InCategory(c), rows) == []
  {
  }

  /** Each label holds as many titles as it has rows. */
  lemma {:induction false} GroupSizes(rows: seq<FileDataLabel>)
    ensures forall c :: c in Grouped(rows) ==> |Grouped(rows)[c]| == multiset(Map(Label, rows))[c]
  {
    if rows != [] {
      var init, row := rows[..|rows| - 1], rows[|rows| - 1];
      assert rows == init + [row];
      GroupSizes(init);
      GroupedKeys(init);
      MapSnoc(Label, init, row);
      forall c | c in Grouped(rows)
        ensures |Grouped(rows)[c]| == multiset(Map(Label, rows))[c]
      {
        if c == row.predictedLabel && c !in Grouped(init) {
          assert c !in multiset(Map(Label, init));
        }
      }
    }
  }

  /** The words `ParseWords` takes from a row: its top words in word mode, then its title in title mode. */
  function RowKeys(row: FileDataLabel): seq<string>
  {
    ParsedKeys(row.top20Words, false) + ParsedKeys(row.title, true)
  }

  /** The dictionaries after one row: only the row's cluster changes, created first when missing. */
  function FedRow(tallies: map<uint32, Tally>, row: FileDataLabel): map<uint32, Tally>
  {
    var t := Opened(tallies, row.predictedLabel);
    var words := TouchAll(t[row.predictedLabel], ParsedKeys(row.top20Words, false));
    t[row.predictedLabel := TouchAll(words, ParsedKeys(row.title, true))]
  }

  /** The dictionaries after the rows, in row order. */
  function Fed(tallies: map<uint32, Tally>, rows: seq<FileDataLabel>): map<uint32, Tally>
  {
    if rows == [] then tallies else FedRow(Fed(tallies, rows[..|rows| - 1]), rows[|rows| - 1])
  }

  /** Touching the words of `a` then those of `b` is touching those of `a + b`. */
  lemma {:induction false} TouchAllAppend(t: Tally, a: seq<string>, b: seq<string>)
    ensures TouchAll(TouchAll(t, a), b) == TouchAll(t, a + b)
  {
    if b == [] {
      assert a + b == a;
    } else {
      var init, w := b[..|b| - 1], b[|b| - 1];
      assert b == init + [w];
      assert a + b == (a + init) + [w];
      TouchAllAppend(t, a, init);
      TouchAllSnoc(TouchAll(t, a), init, w);
      TouchAllSnoc(t, a + init, w);
    }
  }

  /** A row touches its cluster's dictionary with its words, and no other. */
  lemma FedRowTouches(tallies: map<uint32, Tally>, row: FileDataLabel)
    ensures var after := FedRow(tallies, row);
            (forall c :: c in after <==> c in tallies || c == row.predictedLabel) &&
            (forall c :: c in tallies && c != row.predictedLabel ==> after[c] == tallies[c]) &&
            after[row.predictedLabel] == TouchAll(Opened(tallies, row.predictedLabel)[row.predictedLabel], RowKeys(row))
  {
    var t := Opened(tallies, row.predictedLabel)[row.predictedLabel];
    TouchAllAppend(t, ParsedKeys(row.top20Words, false), ParsedKeys(row.title, true));
  }

  /**
   * The rows feed only their own clusters: afterwards the clusters are those
   * there were plus the labels of the rows, and a cluster no row names keeps
   * its dictionary.
   */
  lemma {:induction false} FedKeys(tallies: map<uint32, Tally>, rows: seq<FileDataLabel>)
    ensures forall c :: c in Fed(tallies, rows) <==> c in tallies || c in Map(Label, rows)
    ensures forall c :: c in tallies && c !in Map(Label, rows) ==> Fed(tallies, rows)[c] == tallies[c]
  {
    if rows != [] {
      var init, row := rows[..|rows| - 1], rows[|rows| - 1];
      assert rows == init + [row];
      FedKeys(tallies, init);
      MapSnoc(Label, init, row);
      FedRowTouches(Fed(tallies, init), row);
    }
  }

  /**
   * A named cluster's dictionary ends as the one it had (or an empty one)
   * with the words of its rows touched, in row order.
   */
  lemma {:induction false} FedCategory(tallies: map<uint32, Tally>, rows: seq<FileDataLabel>, c: uint32)
    requires c in Map(Label, rows)
    ensures c in Fed(tallies, rows)
    ensures Fed(tallies, rows)[c] == TouchAll(Opened(tallies, c)[c], FedWords(rows, c))
  {
    var init, row := rows[..|rows| - 1], rows[|rows| - 1];
    assert rows == init + [row];
    assert Opened(Fed(tallies, init), c)[c] == TouchAll(Opened(tallies, c)[c], FedWords(init, c)) by {
      FedKeys(tallies, init);
      if c in Map(Label, init) {
        FedCategory(tallies, init, c);
      } else {
        NoneInCategory(init, c);
        assert FedWords(init, c) == [];
      }
    }
    assert c in Fed(tallies, rows) by { FedKeys(tallies, rows); }
    if c == row.predictedLabel {
      FedOwnStep(tallies, init, row);
    } else {
      assert c in Fed(tallies, init) by {
        MapSnoc(Label, init, row);
        FedKeys(tallies, init);
      }
      FedOtherStep(tallies, init, row, c);
    }
  }

  /** The words a cluster's rows feed it, in row order. */
  function FedWords(rows: seq<FileDataLabel>, c: uint32): seq<string>
  {
    Flatten(Map(RowKeys, Filter(InCategory(c), rows)))
  }

  lemma FedOwnStep(tallies: map<uint32, Tally>, init: seq<FileDataLabel>, row: FileDataLabel)
    requires var c := row.predictedLabel;
             Opened(Fed(tallies, init), c)[c] == TouchAll(Opened(tallies, c)[c], FedWords(init, c))
    ensures var c := row.predictedLabel;
            Fed(tallies, init + [row])[c] == TouchAll(Opened(tallies, c)[c], FedWords(init + [row], c))
  {
    var c := row.predictedLabel;
    var before := Filter(InCategory(c), init);
    assert (init + [row])[..|init|] == init;
    FilterAppend(InCategory(c), init, [row]);
    FilterSingle(InCategory(c), row);
    MapSnoc(RowKeys, before, row);
    assert (Map(RowKeys, before) + [RowKeys(row)])[..|before|] == Map(RowKeys, before);
    FedRowTouches(Fed(tallies, init), row);
    TouchAllAppend(Opened(tallies, c)[c], FedWords(init, c), RowKeys(row));
  }

  lemma FedOtherStep(tallies: map<uint32, Tally>, init: seq<FileDataLabel>, row: FileDataLabel, c: uint32)
    requires c != row.predictedLabel && c in Fed(tallies, init)
    ensures Fed(tallies, init + [row])[c] == Fed(tallies, init)[c]
    ensures FedWords(init + [row], c) == FedWords(init, c)
  {
    assert (init + [row])[..|init|] == init;
    FilterAppend(InCategory(c), init, [row]);
    FilterSingle(InCategory(c), row);
    assert !InCategory(c)(row);
    assert Filter(InCategory(c), init) + [] == Filter(InCategory(c), init);
    assert Filter(InCategory(c), init + [row]) == Filter(InCategory(c), init);
    FedRowTouches(Fed(tallies, init), row);
  }

  /**
   * One pass of the loop over the rows, on the category matrix: the row's
   * cluster matrix, created when missing, takes the top words, then the title.
   */
  method FeedRow(categoryMatrix: CategoryMatrix, row: FileDataLabel)
    requires categoryMatrix.Valid()
    modifies categoryMatrix, categoryMatrix.categoryList.Values
    ensures categoryMatrix.Valid()
    ensures categoryMatrix.Tallies() == FedRow(old(categoryMatrix.Tallies()), row)
    ensures forall m :: m in categoryMatrix.categoryList.Values ==>
              m in old(categoryMatrix.categoryList.Values) || fresh(m)
  {
    var wordMatrix := categoryMatrix.Get(row.predictedLabel);
    ParseRowWords(categoryMatrix, wordMatrix, row);
  }

  /** The two `ParseWords` calls on the row's cluster matrix: only that cluster's dictionary changes. */
  method ParseRowWords(categoryMatrix: CategoryMatrix, wordMatrix: WordMatrix, row: FileDataLabel)
    requires categoryMatrix.Valid()
    requires row.predictedLabel in categoryMatrix.categoryList
    requires categoryMatrix.categoryList[row.predictedLabel] == wordMatrix
    modifies wordMatrix
    ensures categoryMatrix.categoryList == old(categoryMatrix.categoryList)
    ensures categoryMatrix.Valid()
    ensures categoryMatrix.Tallies()
            == old(categoryMatrix.Tallies())[row.predictedLabel := TouchAll(
                 TouchAll(old(categoryMatrix.Tallies())[row.predictedLabel], ParsedKeys(row.top20Words, false)),
                 ParsedKeys(row.title, true))]
  {
    assert old(categoryMatrix.Tallies())[row.predictedLabel] == wordMatrix.State();
    wordMatrix.ParseWords(row.top20Words, false);
    wordMatrix.ParseWords(row.title, true);
    ghost var list := categoryMatrix.categoryList;
    ghost var after := old(categoryMatrix.Tallies())[row.predictedLabel := wordMatrix.State()];
    assert categoryMatrix.Tallies() == after by {
      forall c | c in list
        ensures categoryMatrix.Tallies()[c] == after[c]
      {
        if c != row.predictedLabel {
          assert list[c] != wordMatrix;
        }
      }
      assert categoryMatrix.Tallies().Keys == after.Keys;
    }
  }

  /**
   * The loop over the labelled rows: the titles grouped by label (with the
   * labels in the order first seen, the order of the dictionary's keys), each
   * row fed to its cluster, and each row's `Data` line appended to the
   * categorized list.
   */
  method Categorize(rows: seq<FileDataLabel>, categoryMatrix: CategoryMatrix)
    returns (summary: map<uint32, seq<string>>, labels: seq<uint32>, categorized: seq<string>)
    requires categoryMatrix.Valid()
    modifies categoryMatrix, categoryMatrix.categoryList.Values
    ensures categoryMatrix.Valid()
    ensures categoryMatrix.Tallies() == Fed(old(categoryMatrix.Tallies()), rows)
    ensures summary == Grouped(rows)
    ensures labels == Distinct(Map(Label, rows))
    ensures categorized == Map(Data, rows)
  {
    summary, labels, categorized := map[], [], [];
    for i := 0 to |rows|
      invariant categoryMatrix.Valid()
      invariant categoryMatrix.Tallies() == Fed(old(categoryMatrix.Tallies()), rows[..i])
      invariant forall m :: m in categoryMatrix.categoryList.Values ==>
                  m in old(categoryMatrix.categoryList.Values) || fresh(m)
      invariant summary == Grouped(rows[..i])
      invariant labels == Distinct(Map(Label, rows[..i]))
      invariant categorized == Map(Data, rows[..i])
    {
      var row := rows[i];
      CategorizeStep(old(categoryMatrix.Tallies()), rows, i);
      if row.predictedLabel !in summary {
        labels := labels + [row.predictedLabel];
      }
      summary := WithTitle(summary, row);
      FeedRow(categoryMatrix, row);
      categorized := categorized + [Data(row)];
    }
    assert rows[..|rows|] == rows;
  }

  /** The title of each cluster whose dictionary is well formed. */
  ghost function TitlesOf(tallies: map<uint32, Tally>): map<uint32, string>
  {
    map c | c in tallies && TallyValid(tallies[c]) :: CategoryTitleOf(tallies[c])
  }

  /** `OrderBy(k => k)` on labels. */
  predicate LabelLe(a: uint32, b: uint32)
  {
    a <= b
  }

  lemma LabelLeTotalPreorder()
    ensures TotalPreorder(LabelLe)
  {
  }

  function Header(category: uint32, title: string): string
  {
    "Category " + NatToString(category as nat) + ": " + title
  }

  function Tabbed(title: string): string
  {
    "\t" + title
  }

  /** A cluster's part of the summary: its header, then its titles in order, each after a tab. */
  function Section(category: uint32, title: string, titles: seq<string>, titleLe: (string, string) -> bool): seq<string>
  {
    [Header(category, title)] + Map(Tabbed, SortBy(titles, titleLe))
  }

  /** A cluster's title, empty for a cluster without one. */
  function ClusterTitle(titles: map<uint32, string>, c: uint32): string
  {
    if c in titles then titles[c] else ""
  }

  /** A cluster's document titles, none for a cluster without a list. */
  function ClusterTitles(summary: map<uint32, seq<string>>, c: uint32): seq<string>
  {
    if c in summary then summary[c] else []
  }

  /** The summary text of the clusters in `categories`, in that order. */
  function SummaryLines(summary: map<uint32, seq<string>>, categories: seq<uint32>,
                        titles: map<uint32, string>, titleLe: (string, string) -> bool): seq<string>
  {
    if categories == [] then []
    else
      var c := categories[|categories| - 1];
      SummaryLines(summary, categories[..|categories| - 1], titles, titleLe)
      + Section(c, ClusterTitle(titles, c), ClusterTitles(summary, c), titleLe)
  }

  /** One more category adds its section at the end. */
  lemma SummaryLinesStep(summary: map<uint32, seq<string>>, categories: seq<uint32>, i: nat,
                         titles: map<uint32, string>, titleLe: (string, string) -> bool)
    requires i < |categories|
    ensures SummaryLines(summary, categories[..i + 1], titles, titleLe)
            == SummaryLines(summary, categories[..i], titles, titleLe)
               + Section(categories[i], ClusterTitle(titles, categories[i]), ClusterTitles(summary, categories[i]), titleLe)
  {
    assert categories[..i + 1][..i] == categories[..i];
  }

  /**
   * The loop writing the summary: the labels in ascending order, each with its
   * header, then its titles in the culture's order (`titleLe`), each after a
   * tab. Asking for a cluster's title leaves the dictionaries as they are,
   * since every label has its matrix.
   */
  method WriteSummary(summary: map<uint32, seq<string>>, labels: seq<uint32>,
                      categoryMatrix: CategoryMatrix, titleLe: (string, string) -> bool)
    returns (summaryText: seq<string>)
    requires categoryMatrix.Valid()
    requires forall c :: c in labels ==> c in summary && c in categoryMatrix.Tallies()
    modifies categoryMatrix
    ensures categoryMatrix.Valid() && categoryMatrix.Tallies() == old(categoryMatrix.Tallies())
    ensures summaryText
            == SummaryLines(summary, SortBy(labels, LabelLe), TitlesOf(old(categoryMatrix.Tallies())), titleLe)
  {
    var ordered := SortBy(labels, LabelLe);
    assert forall i :: 0 <= i < |ordered| ==> ordered[i] in labels by { SortByMembers(labels, LabelLe); }
    summaryText := WriteSections(summary, ordered, categoryMatrix, TitlesOf(categoryMatrix.Tallies()), titleLe);
  }

  /** The loop of `WriteSummary` over the labels, already in order. */
  method WriteSections(summary: map<uint32, seq<string>>, ordered: seq<uint32>,
                       categoryMatrix: CategoryMatrix, ghost titles: map<uint32, string>,
                       titleLe: (string, string) -> bool)
    returns (summaryText: seq<string>)
    requires categoryMatrix.Valid() && titles == TitlesOf(categoryMatrix.Tallies())
    requires forall i :: 0 <= i < |ordered| ==> ordered[i] in summary && ordered[i] in categoryMatrix.Tallies()
    modifies categoryMatrix
    ensures categoryMatrix.Valid() && categoryMatrix.Tallies() == old(categoryMatrix.Tallies())
    ensures summaryText == SummaryLines(summary, ordered, titles, titleLe)
  {
    ghost var tallies := categoryMatrix.Tallies();
    summaryText := [];
    for i := 0 to |ordered|
      invariant categoryMatrix.Valid() && categoryMatrix.Tallies() == tallies
      invariant summaryText == SummaryLines(summary, ordered[..i], titles, titleLe)
    {
      var category := ordered[i];
      SummaryLinesStep(summary, ordered, i, titles, titleLe);
      summaryText := WriteCategory(categoryMatrix, titles, summaryText, category, summary[category], titleLe);
    }
    assert ordered[..|ordered|] == ordered;
  }

  /** Every cluster that has its matrix has a title, so no label of the summary goes without one. */
  lemma EveryClusterTitled(categoryMatrix: CategoryMatrix)
    requires categoryMatrix.Valid()
    ensures TitlesOf(categoryMatrix.Tallies()).Keys == categoryMatrix.Tallies().Keys
  {
    forall c | c in categoryMatrix.Tallies()
      ensures c in TitlesOf(categoryMatrix.Tallies())
    {
      assert categoryMatrix.categoryList[c].Valid();
    }
  }

  /**
   * One label's part of the loop: the cluster's title asked for, then its
   * section appended. Every label has its matrix, so the dictionaries stay as
   * they are; `titles` is the title of every cluster.
   */
  method WriteCategory(categoryMatrix: CategoryMatrix, ghost titles: map<uint32, string>,
                       summaryText: seq<string>, category: uint32,
                       categoryTitles: seq<string>, titleLe: (string, string) -> bool)
    returns (lines: seq<string>)
    requires categoryMatrix.Valid() && category in categoryMatrix.Tallies()
    requires titles == TitlesOf(categoryMatrix.Tallies())
    modifies categoryMatrix
    ensures categoryMatrix.Valid() && categoryMatrix.Tallies() == old(categoryMatrix.Tallies())
    ensures lines == summaryText + Section(category, ClusterTitle(titles, category), categoryTitles, titleLe)
  {
    ghost var tallies := categoryMatrix.Tallies();
    var title := categoryMatrix.GetCategoryTitle(category);
    assert Opened(tallies, category) == tallies;
    lines := AddSection(summaryText, category, title, categoryTitles, titleLe);
  }

  /** The lines of one label: its header, then its titles in order, each after a tab. */
  method AddSection(summaryText: seq<string>, category: uint32, title: string,
                    categoryTitles: seq<string>, titleLe: (string, string) -> bool)
    returns (lines: seq<string>)
    ensures lines == summaryText + Section(category, title, categoryTitles, titleLe)
  {
    var header := Header(category, title);
    lines := summaryText + [header];
    var ordered := SortBy(categoryTitles, titleLe);
    for j := 0 to |ordered|
      invariant lines == summaryText + ([header] + Map(Tabbed, ordered[..j]))
    {
      MapSnoc(Tabbed, ordered[..j], ordered[j]);
      assert ordered[..j + 1] == ordered[..j] + [ordered[j]];
      AppendTwice(summaryText, [header] + Map(Tabbed, ordered[..j]), [Tabbed(ordered[j])]);
      AppendTwice([header], Map(Tabbed, ordered[..j]), [Tabbed(ordered[j])]);
      lines := lines + [Tabbed(ordered[j])];
    }
    assert ordered[..|ordered|] == ordered;
  }


  /** `m[x]` summed over the elements of `s`. */
  function Counts<T>(s: seq<T>, m: multiset<T>): nat
  {
    if s == [] then 0 else Counts(s[..|s| - 1], m) + m[s[|s| - 1]]
  }

  lemma {:induction false} CountsAdd<T>(s: seq<T>, m: multiset<T>, x: T)
    requires NoDuplicates(s)
    ensures Counts(s, m + multiset{x}) == Counts(s, m) + if x in s then 1 else 0
  {
    if s != [] {
      var init := s[..|s| - 1];
      assert s == init + [s[|s| - 1]];
      CountsAdd(init, m, x);
    }
  }

  /** Over a sequence that holds each element of `m` once, the counts add up to the size of `m`. */
  lemma {:induction false} CountsCover<T>(s: seq<T>, m: multiset<T>)
    requires NoDuplicates(s)
    requires forall x :: x in m ==> x in s
    ensures Counts(s, m) == |m|
    decreases |m|
  {
    if m == multiset{} {
      CountsEmpty(s);
    } else {
      var x :| x in m;
      var rest := m - multiset{x};
      assert m == rest + multiset{x};
      CountsCover(s, rest);
      CountsAdd(s, rest, x);
    }
  }

  lemma {:induction false} CountsEmpty<T>(s: seq<T>)
    ensures Counts(s, multiset{}) == 0
  {
    if s != [] {
      CountsEmpty(s[..|s| - 1]);
    }
  }

  /** A summary holds one header per cluster and one line per title. */
  lemma {:induction false} SummaryLinesLength(summary: map<uint32, seq<string>>, categories: seq<uint32>,
                                              titles: map<uint32, string>, titleLe: (string, string) -> bool,
                                              sizes: multiset<uint32>)
    requires forall c :: c in categories ==> c in summary && |summary[c]| == sizes[c]
    ensures |SummaryLines(summary, categories, titles, titleLe)| == |categories| + Counts(categories, sizes)
  {
    if categories != [] {
      SummaryLinesLength(summary, categories[..|categories| - 1], titles, titleLe, sizes);
    }
  }

  /**
   * The summary of a run lists the labels in strictly ascending order, and
   * has one line per distinct label plus one per row.
   */
  lemma SummaryShape(rows: seq<FileDataLabel>, titles: map<uint32, string>, titleLe: (string, string) -> bool)
    ensures var ordered := SortBy(Distinct(Map(Label, rows)), LabelLe);
            (forall c :: c in ordered <==> c in Map(Label, rows)) &&
            (forall i :: 0 < i < |ordered| ==> ordered[i - 1] < ordered[i]) &&
            (forall c :: c in ordered ==> c in Grouped(rows)) &&
            |SummaryLines(Grouped(rows), ordered, titles, titleLe)|
            == |Distinct(Map(Label, rows))| + |rows|
  {
    var labels := Distinct(Map(Label, rows));
    var ordered := SortBy(labels, LabelLe);
    SortByPermutation(labels, LabelLe);
    forall c ensures c in ordered <==> c in labels {
      assert c in ordered <==> c in multiset(ordered);
    }
    LabelLeTotalPreorder();
    SortBySorted(labels, LabelLe);
    SortByNoDuplicates(labels, LabelLe);
    forall i | 0 < i < |ordered| ensures ordered[i - 1] < ordered[i] {
      assert LabelLe(ordered[i - 1], ordered[i]);
    }
    GroupedKeys(rows);
    GroupSizes(rows);
    var sizes := multiset(Map(Label, rows));
    SummaryLinesLength(Grouped(rows), ordered, titles, titleLe, sizes);
    CountsCover(ordered, sizes);
    assert |sizes| == |rows|;
  }
}
