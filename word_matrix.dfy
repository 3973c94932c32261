/**
 * The word matrix of Common/WordMatrix.cs: a dictionary from words (or title
 * phrases) to how often they were seen, filled by `ParseWords` and read back
 * ranked by `WordsHighToLow`.
 *
 * The dictionary enumerates its keys in insertion order (nothing is ever
 * removed), so its abstract value is a `Tally`: the keys in that order and
 * the map of counts.
 */
module WordCounting {
  import opened Text
  import opened Sequences
  import opened Extensions

  datatype Tally = Tally(order: seq<string>, counts: map<string, int>)

  /** A `WordsHighToLow` entry. */
  datatype WordCount = WordCount(word: string, count: int)

  const EmptyTally := Tally([], map[])

  /** The keys the setter can create: never blank, never holding a double quote. */
  predicate IsKey(w: string)
  {
    !IsBlank(w) && '"' !in w
  }

  /**
   * What the dictionary always satisfies: each key listed once in insertion
   * order, the listed keys are the dictionary's keys, and every count is at
   * least one.
   */
  ghost predicate TallyValid(t: Tally)
  {
    (forall i, j :: 0 <= i < j < |t.order| ==> t.order[i] != t.order[j]) &&
    (forall k :: k in t.counts <==> k in t.order) &&
    (forall k :: k in t.counts ==> t.counts[k] >= 1 && IsKey(k))
  }

  /** The getter: the count of `word`, 0 when it is not a key. */
  function CountOf(t: Tally, word: string): int
  {
    if word in t.counts then t.counts[word] else 0
  }

  /** The key the setter files `word` under: its double quotes removed. */
  function CleanWord(word: string): (r: string)
    ensures '"' !in r
    ensures '"' !in word ==> r == word
  {
    RemoveChar(word, '"')
  }

  /**
   * The setter, whatever value is assigned: a blank key is ignored, a new key
   * is appended with count 1, an existing one incremented.
   */
  function Touch(t: Tally, word: string): Tally
  {
    var w := CleanWord(word);
    if IsBlank(w) then t
    else if w in t.counts then Tally(t.order, t.counts[w := t.counts[w] + 1])
    else Tally(t.order + [w], t.counts[w := 1])
  }

  /** The setter applied to each word in turn. */
  function TouchAll(t: Tally, words: seq<string>): Tally
  {
    if words == [] then t
    else Touch(TouchAll(t, words[..|words| - 1]), words[|words| - 1])
  }

  lemma TouchAllSnoc(t: Tally, words: seq<string>, w: string)
    ensures TouchAll(t, words + [w]) == Touch(TouchAll(t, words), w)
  {
    assert (words + [w])[..|words|] == words;
  }

  /** The setter keeps the dictionary well formed and only ever appends keys. */
  lemma TouchValid(t: Tally, word: string)
    requires TallyValid(t)
    ensures TallyValid(Touch(t, word))
    ensures |t.order| <= |Touch(t, word).order| <= |t.order| + 1
    ensures Touch(t, word).order[..|t.order|] == t.order
  {
    var w := CleanWord(word);
    if !IsBlank(w) && w !in t.counts {
      var o := t.order + [w];
      assert o[..|t.order|] == t.order;
      forall i, j | 0 <= i < j < |o| ensures o[i] != o[j] {
        if j == |t.order| {
          assert o[i] in t.order;
        }
      }
    }
  }

  /** The setter adds one to the count of the cleaned word, if it is not blank, and to no other. */
  lemma TouchCount(t: Tally, word: string, w: string)
    ensures CountOf(Touch(t, word), w)
         == CountOf(t, w) + (if CleanWord(word) == w && !IsBlank(w) then 1 else 0)
  {
  }

  /** The number of words the setter files under `w`. */
  function Occurrences(words: seq<string>, w: string): nat
  {
    if words == [] then 0
    else Occurrences(words[..|words| - 1], w) + (if CleanWord(words[|words| - 1]) == w then 1 else 0)
  }

  /**
   * After a run of the setter, the count of a possible key has grown by the
   * number of words filed under it; a blank string never gets a count.
   */
  lemma {:induction false} TouchAllCount(t: Tally, words: seq<string>, w: string)
    ensures !IsBlank(w) ==> CountOf(TouchAll(t, words), w) == CountOf(t, w) + Occurrences(words, w)
    ensures IsBlank(w) ==> CountOf(TouchAll(t, words), w) == CountOf(t, w)
  {
    if words != [] {
      var init := words[..|words| - 1];
      TouchAllCount(t, init, w);
      TouchCount(TouchAll(t, init), words[|words| - 1], w);
    }
  }

  lemma {:induction false} TouchAllValid(t: Tally, words: seq<string>)
    requires TallyValid(t)
    ensures TallyValid(TouchAll(t, words))
    ensures |t.order| <= |TouchAll(t, words).order|
    ensures TouchAll(t, words).order[..|t.order|] == t.order
  {
    if words != [] {
      var init := words[..|words| - 1];
      TouchAllValid(t, init);
      var u := TouchAll(t, init);
      TouchValid(u, words[|words| - 1]);
      var v := Touch(u, words[|words| - 1]);
      assert v.order[..|u.order|] == u.order;
      assert v.order[..|t.order|] == u.order[..|t.order|];
    }
  }

  /** The tokens of word mode: the text without double quotes, split at each space. */
  function WordTokens(text: string): seq<string>
  {
    Split(RemoveChar(text, '"'), ' ')
  }

  /** A title word that starts no phrase: nothing, or only a hyphen, is left once stripped. */
  predicate SkippedPart(part: string)
  {
    var check := StripNonAlpha(part);
    IsBlank(check) || check == "-"
  }

  /** The phrases counted for the first `n` words of a title. */
  function PhrasesUpTo(parts: seq<string>, n: nat): seq<string>
    requires n <= |parts|
  {
    if n == 0 then []
    else PhrasesUpTo(parts, n - 1) + (if SkippedPart(parts[n - 1]) then [] else [Join(' ', parts[..n])])
  }

  /** One more title word adds its phrase, unless the word is skipped. */
  lemma PhraseStep(parts: seq<string>, idx: nat)
    requires idx < |parts|
    ensures var check := StripNonAlpha(parts[..idx + 1][idx]);
            PhrasesUpTo(parts, idx + 1) ==
            PhrasesUpTo(parts, idx) + (if IsBlank(check) || check == "-" then [] else [Join(' ', parts[..idx + 1])])
  {
    assert parts[..idx + 1][idx] == parts[idx];
  }

  /**
   * Title mode: for each word of the title that is not skipped, the phrase
   * made of the title's words up to and including it.
   */
  function TitlePhrases(text: string): seq<string>
  {
    var parts := Split(RemoveChar(text, '"'), ' ');
    PhrasesUpTo(parts, |parts|)
  }

  /** The words `ParseWords` hands to the setter. */
  function ParsedKeys(wordList: string, isTitle: bool): seq<string>
  {
    if isTitle then TitlePhrases(wordList) else WordTokens(wordList)
  }

  /** Joining one more part extends the joined text by a space and that part. */
  lemma {:induction false} JoinSnoc(parts: seq<string>, p: string, sep: char)
    requires parts != []
    ensures Join(sep, parts + [p]) == Join(sep, parts) + [sep] + p
  {
    if |parts| == 1 {
      assert (parts + [p])[1..] == [p];
    } else {
      assert (parts + [p])[1..] == parts[1..] + [p];
      JoinSnoc(parts[1..], p, sep);
    }
  }

  predicate IsPrefix(p: string, s: string)
  {
    |p| <= |s| && p == s[..|p|]
  }

  /** The join of the first `k` parts is a prefix of the join of the first `n`, and shorter when `k < n`. */
  lemma {:induction false} JoinPrefix(parts: seq<string>, k: nat, n: nat, sep: char)
    requires 1 <= k <= n <= |parts|
    ensures IsPrefix(Join(sep, parts[..k]), Join(sep, parts[..n]))
    ensures k < n ==> |Join(sep, parts[..k])| < |Join(sep, parts[..n])|
  {
    if k < n {
      JoinPrefix(parts, k, n - 1, sep);
      assert parts[..n] == parts[..n - 1] + [parts[n - 1]];
      JoinSnoc(parts[..n - 1], parts[n - 1], sep);
    }
  }

  ghost predicate AllPrefixes(ps: seq<string>, s: string)
  {
    forall i :: 0 <= i < |ps| ==> IsPrefix(ps[i], s)
  }

  ghost predicate Growing(ps: seq<string>)
  {
    forall i, j :: 0 <= i < j < |ps| ==> |ps[i]| < |ps[j]|
  }

  /**
   * The phrases of the first `n` words are prefixes of the joined first `n`
   * words, each longer than the one before.
   */
  lemma {:induction false} PhrasesUpToShape(parts: seq<string>, n: nat)
    requires 1 <= n <= |parts|
    ensures AllPrefixes(PhrasesUpTo(parts, n), Join(' ', parts[..n]))
    ensures Growing(PhrasesUpTo(parts, n))
  {
    var prev := PhrasesUpTo(parts, n - 1);
    var ps := PhrasesUpTo(parts, n);
    var whole := Join(' ', parts[..n]);
    assert ps[..|prev|] == prev;
    if n > 1 {
      PhrasesUpToShape(parts, n - 1);
      var before := Join(' ', parts[..n - 1]);
      JoinPrefix(parts, n - 1, n, ' ');
      forall i | 0 <= i < |prev|
        ensures IsPrefix(prev[i], whole) && |prev[i]| < |whole|
      {
        assert IsPrefix(prev[i], before);
        assert whole[..|before|][..|prev[i]|] == whole[..|prev[i]|];
      }
    }
  }

  /**
   * Every title phrase is a prefix of the title without its double quotes,
   * and the phrases of one title grow strictly, so none is repeated.
   */
  lemma TitlePhrasesShape(text: string)
    ensures var ps := TitlePhrases(text);
            forall i :: 0 <= i < |ps| ==> IsPrefix(ps[i], RemoveChar(text, '"'))
    ensures var ps := TitlePhrases(text);
            forall i, j :: 0 <= i < j < |ps| ==> |ps[i]| < |ps[j]|
  {
    var s := RemoveChar(text, '"');
    var parts := Split(s, ' ');
    PhrasesUpToShape(parts, |parts|);
    JoinSplit(s, ' ');
    assert parts[..|parts|] == parts;
  }

  lemma {:induction false} OccurrencesAtMostOnce(words: seq<string>, w: string)
    requires forall i :: 0 <= i < |words| ==> '"' !in words[i]
    requires forall i, j :: 0 <= i < j < |words| ==> words[i] != words[j]
    ensures Occurrences(words, w) <= 1
    ensures w !in words ==> Occurrences(words, w) == 0
  {
    if words != [] {
      var init := words[..|words| - 1];
      OccurrencesAtMostOnce(init, w);
      if words[|words| - 1] == w {
        assert w !in init;
      }
    }
  }

  /** Parsing one title adds at most one to the count of any phrase. */
  lemma TitleCountsOnce(t: Tally, text: string, w: string)
    ensures CountOf(TouchAll(t, TitlePhrases(text)), w) <= CountOf(t, w) + 1
  {
    var ps := TitlePhrases(text);
    TitlePhrasesShape(text);
    forall i | 0 <= i < |ps| ensures '"' !in ps[i] {
      assert forall c :: c in ps[i] ==> c in RemoveChar(text, '"');
    }
    OccurrencesAtMostOnce(ps, w);
    TouchAllCount(t, ps, w);
  }

  /** Word mode counts each space-separated token; tokens hold no space, so neither do the keys they make. */
  lemma WordModeKeys(t: Tally, text: string, w: string)
    requires TallyValid(t)
    requires forall k :: k in t.counts ==> ' ' !in k
    ensures !IsBlank(w) ==>
              CountOf(TouchAll(t, WordTokens(text)), w) == CountOf(t, w) + Occurrences(WordTokens(text), w)
    ensures forall k :: k in TouchAll(t, WordTokens(text)).counts ==> ' ' !in k
  {
    TouchAllCount(t, WordTokens(text), w);
    WordModeKeysNoSpace(t, WordTokens(text));
  }

  lemma {:induction false} WordModeKeysNoSpace(t: Tally, words: seq<string>)
    requires forall k :: k in t.counts ==> ' ' !in k
    requires forall i :: 0 <= i < |words| ==> ' ' !in words[i]
    ensures forall k :: k in TouchAll(t, words).counts ==> ' ' !in k
  {
    if words != [] {
      WordModeKeysNoSpace(t, words[..|words| - 1]);
      var last := words[|words| - 1];
      assert forall c :: c in CleanWord(last) ==> c in last;
    }
  }

  /**
   * A title of two words around a hyphen counts the first word and the whole
   * title; the hyphen starts no phrase of its own.
   */
  lemma HyphenatedTitle(a: string, b: string)
    requires '"' !in a && '"' !in b && ' ' !in a && ' ' !in b
    requires !SkippedPart(a) && !SkippedPart(b)
    ensures TitlePhrases(a + " - " + b) == [a, a + " - " + b]
  {
    HyphenatedTitleParts(a, b);
    HyphenatedTitlePhrases(a, b);
  }

  lemma HyphenatedTitleParts(a: string, b: string)
    requires '"' !in a && '"' !in b && ' ' !in a && ' ' !in b
    ensures RemoveChar(a + " - " + b, '"') == a + " - " + b
    ensures Split(a + " - " + b, ' ') == [a, "-", b]
    ensures Join(' ', [a, "-", b]) == a + " - " + b
  {
    var parts := [a, "-", b];
    var s := a + " - " + b;
    assert Join(' ', parts) == s by {
      assert Join(' ', [b]) == b;
      assert Join(' ', parts[1..]) == "-" + [' '] + b;
    }
    assert '"' !in s;
    SplitJoin(parts, ' ');
  }

  lemma HyphenatedTitlePhrases(a: string, b: string)
    requires !SkippedPart(a) && !SkippedPart(b)
    requires Join(' ', [a, "-", b]) == a + " - " + b
    ensures PhrasesUpTo([a, "-", b], 3) == [a, a + " - " + b]
  {
    var parts := [a, "-", b];
    assert SkippedPart("-") by {
      assert StripNonAlpha("-") == "-";
    }
    assert Join(' ', parts[..1]) == a by {
      assert parts[..1] == [a];
    }
    assert PhrasesUpTo(parts, 1) == [] + [a];
    assert PhrasesUpTo(parts, 2) == [a] + [];
    assert parts[..3] == parts;
  }

  function Pow2(n: nat): (r: nat)
    ensures r >= 1
  {
    if n == 0 then 1 else 2 * Pow2(n - 1)
  }

  /** The exclusive or of the low `n` bits of two non-negative integers, bit by bit. */
  function XorBits(a: nat, b: nat, n: nat): (r: nat)
    ensures r < Pow2(n)
  {
    if n == 0 then 0 else 2 * XorBits(a / 2, b / 2, n - 1) + (a + b) % 2
  }

  /** The value of a 32-bit pattern read as a signed `int`. */
  function SignedInt32(x: int): (r: int)
    ensures -0x8000_0000 <= r < 0x8000_0000
    ensures (r - x) % 0x1_0000_0000 == 0
  {
    var v := x % 0x1_0000_0000;
    if v < 0x8000_0000 then v else v - 0x1_0000_0000
  }

  /**
   * `Weight` as written: `length ^ 2 * count` in C# is the exclusive or of
   * the number of space-separated parts with twice the count, in 32-bit
   * arithmetic.
   */
  function Weight(word: string, count: int): (r: int)
    ensures -0x8000_0000 <= r < 0x8000_0000
  {
    LengthXorDoubled(|Split(word, ' ')|, count)
  }

  function LengthXorDoubled(length: int, count: int): (r: int)
    ensures -0x8000_0000 <= r < 0x8000_0000
  {
    SignedInt32(XorBits(length % 0x1_0000_0000, (2 * count) % 0x1_0000_0000, 32))
  }

  /** Exclusive or with zero leaves a value that fits in `n` bits as it is. */
  lemma {:induction false} XorZero(b: nat, n: nat)
    requires b < Pow2(n)
    ensures XorBits(0, b, n) == b
  {
    if n > 0 {
      XorZero(b / 2, n - 1);
    }
  }

  lemma {:induction false} Pow2Add(m: nat, n: nat)
    ensures Pow2(m + n) == Pow2(m) * Pow2(n)
  {
    if m > 0 {
      Pow2Add(m - 1, n);
    }
  }

  lemma Pow2Values()
    ensures Pow2(30) == 0x4000_0000 && Pow2(31) == 0x8000_0000
  {
    assert Pow2(10) == 1024;
    Pow2Add(10, 10);
    Pow2Add(20, 10);
    Pow2Add(30, 1);
  }

  /** Below 2^31 the signed reading of a 32-bit pattern is the pattern itself. */
  lemma SignedSmall(x: int)
    requires 0 <= x < 0x8000_0000
    ensures SignedInt32(x) == x
  {
  }

  /** One part: `1 ^ 2 * count` sets the low bit of the even `2 * count`. */
  lemma WordXorDoubled(count: int)
    requires 0 <= count < 0x4000_0000
    ensures LengthXorDoubled(1, count) == 2 * count + 1
  {
    var doubled := 2 * count;
    assert doubled % 0x1_0000_0000 == doubled;
    OneXorEven(count);
    Pow2Values();
    XorZero(count, 31);
    SignedSmall(doubled + 1);
  }

  /** The lowest bit of `1 ^ 2 * count` is set; the others are those of `count`. */
  lemma OneXorEven(count: nat)
    ensures XorBits(1, 2 * count, 32) == 2 * XorBits(0, count, 31) + 1
  {
    assert (2 * count) / 2 == count && (1 + 2 * count) % 2 == 1;
  }

  /** Two parts: `2 ^ 2 * count` flips bit 1 of `2 * count`, which is the low bit of `count`. */
  lemma PhraseOfTwoXorDoubled(count: int)
    requires 0 <= count < 0x4000_0000
    ensures LengthXorDoubled(2, count) == if count % 2 == 0 then 2 * count + 2 else 2 * count - 2
  {
    var doubled := 2 * count;
    assert doubled % 0x1_0000_0000 == doubled;
    var x := XorBits(2, doubled, 32);
    TwoXorEven(count);
    OneXorCount(count);
    SignedSmall(x);
  }

  /** The lowest bit of `2 ^ 2 * count` is clear; the others are those of `1 ^ count`. */
  lemma TwoXorEven(count: nat)
    ensures XorBits(2, 2 * count, 32) == 2 * XorBits(1, count, 31)
  {
  }

  /** The step of `PhraseOfTwoXorDoubled`: `1 ^ count` flips the low bit of `count`. */
  lemma OneXorCount(count: int)
    requires 0 <= count < 0x4000_0000
    ensures XorBits(1, count, 31) == if count % 2 == 0 then count + 1 else count - 1
  {
    Pow2Values();
    XorZero(count / 2, 30);
    assert XorBits(1, count, 31) == 2 * XorBits(0, count / 2, 30) + (1 + count) % 2;
  }

  /** A word without a space, seen `count` times, weighs `2 * count + 1`. */
  lemma WeightOfWord(word: string, count: int)
    requires ' ' !in word && 0 <= count < 0x4000_0000
    ensures Weight(word, count) == 2 * count + 1
  {
    SplitNoSep(word, ' ');
    WordXorDoubled(count);
  }

  /**
   * A phrase of two space-free words, seen `count` times, weighs
   * `2 * count + 2` when the count is even and `2 * count - 2` when it is odd.
   */
  lemma WeightOfPhraseOfTwo(first: string, second: string, count: int)
    requires ' ' !in first && ' ' !in second && 0 <= count < 0x4000_0000
    ensures Weight(first + " " + second, count) == if count % 2 == 0 then 2 * count + 2 else 2 * count - 2
  {
    SplitJoin([first, second], ' ');
    assert Join(' ', [first, second]) == first + " " + second;
    PhraseOfTwoXorDoubled(count);
  }

  /**
   * As written, a single word outweighs a two-word phrase seen as often
   * exactly when that count is odd, although phrases are meant to weigh more.
   */
  lemma WeightPrefersWords(word: string, first: string, second: string, count: int)
    requires ' ' !in word && ' ' !in first && ' ' !in second && 0 <= count < 0x4000_0000
    ensures Weight(word, count) > Weight(first + " " + second, count) <==> count % 2 == 1
  {
    WeightOfWord(word, count);
    WeightOfPhraseOfTwo(first, second, count);
  }

  /** `OrderByDescending(count).ThenByDescending(Weight)`. */
  predicate RankLe(x: WordCount, y: WordCount)
  {
    x.count > y.count ||
    (x.count == y.count && Weight(x.word, x.count) >= Weight(y.word, y.count))
  }

  lemma RankLeTotalPreorder()
    ensures TotalPreorder(RankLe)
  {
  }

  /** The dictionary's entries in enumeration order. */
  function Entries(t: Tally): (r: seq<WordCount>)
    requires TallyValid(t)
    ensures |r| == |t.order|
    ensures forall i :: 0 <= i < |r| ==> r[i] == WordCount(t.order[i], t.counts[t.order[i]])
  {
    seq(|t.order|, i requires 0 <= i < |t.order| => WordCount(t.order[i], t.counts[t.order[i]]))
  }

  /** `WordsHighToLow` of a dictionary. */
  function Ranked(t: Tally): seq<WordCount>
    requires TallyValid(t)
  {
    SortBy(Entries(t), RankLe)
  }

  /**
   * The ranking lists every entry once, by count from high to low, ties by
   * weight from high to low, and entries equal on both in insertion order.
   */
  lemma RankedSpec(t: Tally, e: WordCount)
    requires TallyValid(t)
    ensures multiset(Ranked(t)) == multiset(Entries(t))
    ensures Sorted(Ranked(t), RankLe)
    ensures forall i :: 0 < i < |Ranked(t)| ==> Ranked(t)[i - 1].count >= Ranked(t)[i].count
    ensures EquivalentTo(Ranked(t), e, RankLe) == EquivalentTo(Entries(t), e, RankLe)
  {
    RankLeTotalPreorder();
    SortBySorted(Entries(t), RankLe);
    SortByPermutation(Entries(t), RankLe);
    SortByStable(Entries(t), e, RankLe);
  }

  /** Every ranked entry is a key with its count, which is at least one. */
  lemma RankedEntries(t: Tally, i: int)
    requires TallyValid(t) && 0 <= i < |Ranked(t)|
    ensures Ranked(t)[i].word in t.counts
    ensures Ranked(t)[i].count == t.counts[Ranked(t)[i].word] >= 1
  {
    var r := Ranked(t);
    SortByPermutation(Entries(t), RankLe);
    assert r[i] in multiset(r);
    var j :| 0 <= j < |Entries(t)| && Entries(t)[j] == r[i];
  }

  /** The dictionary of one `WordMatrix`. */
  class WordMatrix {
    var order: seq<string>
    var wordCounts: map<string, int>

    function State(): Tally
      reads this
    {
      Tally(order, wordCounts)
    }

    ghost predicate Valid()
      reads this
    {
      TallyValid(State())
    }

    constructor ()
      ensures Valid() && State() == EmptyTally
    {
      order := [];
      wordCounts := map[];
    }

    /** The indexer's getter. */
    function Get(word: string): (r: int)
      reads this
      requires Valid()
      ensures r == CountOf(State(), word)
      ensures r >= 1 <==> word in order
      ensures r == 0 <==> word !in order
    {
      if word in wordCounts then wordCounts[word] else 0
    }

    /** The indexer's setter: the value assigned is ignored. */
    method Set(word: string, value: int)
      requires Valid()
      modifies this
      ensures Valid()
      ensures State() == Touch(old(State()), word)
    {
      ghost var start := State();
      var w := RemoveChar(word, '"');
      if IsBlank(w) {
        return;
      }
      if w !in wordCounts {
        wordCounts := wordCounts[w := 0];
        order := order + [w];
      }
      wordCounts := wordCounts[w := wordCounts[w] + 1];
      assert State() == Touch(start, word);
      TouchValid(start, word);
    }

    /** `ParseWords`: counts each token, or in title mode each title phrase. */
    method ParseWords(wordList: string, isTitle: bool)
      requires Valid()
      modifies this
      ensures Valid()
      ensures State() == TouchAll(old(State()), ParsedKeys(wordList, isTitle))
    {
      var parts := Split(RemoveChar(wordList, '"'), ' ');
      if isTitle {
        TouchPhrases(parts);
      } else {
        TouchTokens(parts);
      }
    }

    /** Title mode of `ParseWords`: each phrase up to a word that is not skipped, in order. */
    method TouchPhrases(parts: seq<string>)
      requires Valid()
      modifies this
      ensures Valid()
      ensures State() == TouchAll(old(State()), PhrasesUpTo(parts, |parts|))
    {
      ghost var start := State();
      for idx := 0 to |parts|
        invariant Valid()
        invariant State() == TouchAll(start, PhrasesUpTo(parts, idx))
      {
        AddPhrase(parts, idx, start);
      }
    }

    /** One pass of the title loop: the phrase ending at word `idx`, unless that word is skipped. */
    method AddPhrase(parts: seq<string>, idx: nat, ghost start: Tally)
      requires Valid() && idx < |parts|
      requires State() == TouchAll(start, PhrasesUpTo(parts, idx))
      modifies this
      ensures Valid()
      ensures State() == TouchAll(start, PhrasesUpTo(parts, idx + 1))
    {
      var partial := parts[..idx + 1];
      var wordCheck := StripNonAlpha(partial[idx]);
      if IsBlank(wordCheck) || wordCheck == "-" {
        assert PhrasesUpTo(parts, idx + 1) == PhrasesUpTo(parts, idx) by {
          PhraseStep(parts, idx);
        }
        return;
      }
      assert TouchAll(start, PhrasesUpTo(parts, idx + 1)) == Touch(State(), Join(' ', partial)) by {
        PhraseStep(parts, idx);
        TouchAllSnoc(start, PhrasesUpTo(parts, idx), Join(' ', partial));
      }
      Set(Join(' ', partial), 1);
    }

    /** Word mode of `ParseWords`: each token, in order. */
    method TouchTokens(parts: seq<string>)
      requires Valid()
      modifies this
      ensures Valid()
      ensures State() == TouchAll(old(State()), parts)
    {
      ghost var start := State();
      for i := 0 to |parts|
        invariant Valid()
        invariant State() == TouchAll(start, parts[..i])
      {
        TouchAllSnoc(start, parts[..i], parts[i]);
        assert parts[..i + 1] == parts[..i] + [parts[i]];
        Set(parts[i], 1);
      }
      assert parts[..|parts|] == parts;
    }

    /**
     * `WordsHighToLow`: every entry once, by count from high to low, then by
     * weight from high to low.
     */
    function WordsHighToLow(): (r: seq<WordCount>)
      reads this
      requires Valid()
      ensures multiset(r) == multiset(Entries(State()))
      ensures Sorted(r, RankLe)
      ensures r == Ranked(State())
    {
      RankLeTotalPreorder();
      SortBySorted(Entries(State()), RankLe);
      SortByPermutation(Entries(State()), RankLe);
      SortBy(Entries(State()), RankLe)
    }
  }
}
