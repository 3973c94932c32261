/**
 * The category matrix of Common/CategoryMatrix.cs: one word matrix per
 * cluster, created the first time the cluster is asked for, and the title of
 * a cluster made of its best-ranked words.
 */
module Categories {
  import opened Wrappers
  import opened Text
  import opened Sequences
  import opened WordCounting

  /** `OrderByDescending(w => w.word.Length)`. */
  predicate LongerFirst(x: WordCount, y: WordCount)
  {
    Utf16Length(x.word) >= Utf16Length(y.word)
  }

  function Word(e: WordCount): string
  {
    e.word
  }

  /** The ten best-ranked entries of a dictionary, the longest words first. */
  function TitleEntries(t: Tally): seq<WordCount>
    requires TallyValid(t)
  {
    SortBy(Take(10, Ranked(t)), LongerFirst)
  }

  /** `GetCategoryTitle` of a dictionary: those words joined with commas. */
  function CategoryTitleOf(t: Tally): string
    requires TallyValid(t)
  {
    Join(',', Map(Word, TitleEntries(t)))
  }

  /** The dictionary a cluster has once it has been asked for. */
  function Opened(tallies: map<uint32, Tally>, category: uint32): (r: map<uint32, Tally>)
    ensures category in r
  {
    if category in tallies then tallies else tallies[category := EmptyTally]
  }

  /**
   * The title entries are the ten best-ranked entries, or all of them when
   * there are fewer, ordered by word length from long to short; words of
   * equal length keep their rank order.
   */
  lemma TitleEntriesSpec(t: Tally)
    requires TallyValid(t)
    ensures |TitleEntries(t)| == if |t.order| < 10 then |t.order| else 10
    ensures multiset(TitleEntries(t)) == multiset(Take(10, Ranked(t)))
    ensures forall i :: 0 < i < |TitleEntries(t)| ==>
              Utf16Length(TitleEntries(t)[i - 1].word) >= Utf16Length(TitleEntries(t)[i].word)
    ensures forall e :: EquivalentTo(TitleEntries(t), e, LongerFirst) == EquivalentTo(Take(10, Ranked(t)), e, LongerFirst)
  {
    SortBySorted(Take(10, Ranked(t)), LongerFirst);
    SortByPermutation(Take(10, Ranked(t)), LongerFirst);
    forall e ensures EquivalentTo(TitleEntries(t), e, LongerFirst) == EquivalentTo(Take(10, Ranked(t)), e, LongerFirst) {
      SortByStable(Take(10, Ranked(t)), e, LongerFirst);
    }
  }

  /** Every entry that makes the title ranks at least as high as every entry that does not. */
  lemma TitleEntriesOutrank(t: Tally, i: int, j: int)
    requires TallyValid(t)
    requires 0 <= i < 10 <= j < |Ranked(t)|
    ensures RankLe(Ranked(t)[i], Ranked(t)[j])
  {
    RankedSpec(t, Ranked(t)[i]);
    RankLeTotalPreorder();
    SortedPairwise(Ranked(t), RankLe, i, j);
  }

  /** Every word of the title is a word of the dictionary, seen at least once. */
  lemma TitleWordsAreKeys(t: Tally, w: WordCount)
    requires TallyValid(t)
    requires w in TitleEntries(t)
    ensures w.word in t.counts && w.count == t.counts[w.word] >= 1
  {
    TitleEntriesSpec(t);
    var top := Take(10, Ranked(t));
    assert w in multiset(top);
    var i :| 0 <= i < |top| && top[i] == w;
    RankedEntries(t, i);
  }

  /** A cluster with no words has an empty title. */
  lemma EmptyCategoryTitle()
    ensures CategoryTitleOf(EmptyTally) == ""
  {
    assert Entries(EmptyTally) == [];
  }

  /**
   * When no word holds a comma, the title splits at its commas back into its
   * words: the title loses nothing.
   */
  lemma CategoryTitleRoundTrip(t: Tally)
    requires TallyValid(t) && t.order != []
    requires forall k :: k in t.counts ==> ',' !in k
    ensures Split(CategoryTitleOf(t), ',') == Map(Word, TitleEntries(t))
  {
    TitleEntriesSpec(t);
    var words := Map(Word, TitleEntries(t));
    forall i | 0 <= i < |words| ensures ',' !in words[i] {
      TitleWordsAreKeys(t, TitleEntries(t)[i]);
    }
    SplitJoin(words, ',');
  }

  /** The dictionary of each cluster in a list of word matrices. */
  ghost function TalliesOf(list: map<uint32, WordMatrix>): map<uint32, Tally>
    reads list.Values
  {
    map c | c in list :: list[c].State()
  }

  /** Each cluster has its own well-formed word matrix. */
  ghost predicate OwnValidMatrices(list: map<uint32, WordMatrix>)
    reads list.Values
  {
    (forall c, d :: c in list && d in list && c != d ==> list[c] != list[d]) &&
    (forall c :: c in list ==> list[c].Valid())
  }

  lemma TalliesOfAdd(list: map<uint32, WordMatrix>, c: uint32, m: WordMatrix)
    requires c !in list
    ensures TalliesOf(list[c := m]) == TalliesOf(list)[c := m.State()]
  {
  }

  lemma OwnValidMatricesAdd(list: map<uint32, WordMatrix>, c: uint32, m: WordMatrix)
    requires OwnValidMatrices(list) && c !in list && m !in list.Values && m.Valid()
    ensures OwnValidMatrices(list[c := m])
  {
  }

  class CategoryMatrix {
    var categoryList: map<uint32, WordMatrix>

    ghost predicate Valid()
      reads this, categoryList.Values
    {
      OwnValidMatrices(categoryList)
    }

    /** The dictionary of each cluster asked for so far. */
    ghost function Tallies(): map<uint32, Tally>
      reads this, categoryList.Values
    {
      TalliesOf(categoryList)
    }

    constructor ()
      ensures Valid() && Tallies() == map[] && categoryList == map[]
    {
      categoryList := map[];
    }

    /** The indexer: the cluster's word matrix, created empty the first time. */
    method Get(category: uint32) returns (m: WordMatrix)
      requires Valid()
      modifies this
      ensures Valid()
      ensures category in categoryList && m == categoryList[category]
      ensures category in old(categoryList) ==> categoryList == old(categoryList)
      ensures category !in old(categoryList) ==>
                fresh(m) && categoryList == old(categoryList)[category := m]
      ensures Tallies() == Opened(old(Tallies()), category)
    {
      if category !in categoryList {
        var created := new WordMatrix();
        assert OwnValidMatrices(categoryList[category := created]) by {
          OwnValidMatricesAdd(categoryList, category, created);
        }
        assert TalliesOf(categoryList[category := created]) == old(Tallies())[category := EmptyTally] by {
          TalliesOfAdd(categoryList, category, created);
        }
        categoryList := categoryList[category := created];
      }
      m := categoryList[category];
    }

    /** `GetCategoryTitle`: asks for the cluster's matrix, so creates it when missing. */
    method GetCategoryTitle(category: uint32) returns (title: string)
      requires Valid()
      modifies this
      ensures Valid()
      ensures Tallies() == Opened(old(Tallies()), category)
      ensures title == CategoryTitleOf(Tallies()[category])
    {
      var m := Get(category);
      var ranked := m.WordsHighToLow();
      title := Join(',', Map(Word, SortBy(Take(10, ranked), LongerFirst)));
    }
  }
}
