/**
 * The helper extensions of Common/Extensions.cs: stripping characters outside
 * `[\w @-]`, whitespace normalisation, the `Featurized` column suffix and the
 * null checks behind `ForEach`.
 */
module Extensions {
  import opened Wrappers
  import opened Text
  import opened Sequences

  /**
   * The regular-expression class `\w`. Exact for ASCII and Latin-1; above
   * U+00FF every character counts as a word character except whitespace and
   * the punctuation and symbol blocks U+2000-U+2BFF and U+3000-U+303F. .NET
   * matches a character above U+FFFF one surrogate at a time, and a surrogate
   * is never a word character, so those characters are not kept.
   */
  predicate IsWordChar(c: char)
  {
    ('a' <= c <= 'z') || ('A' <= c <= 'Z') || ('0' <= c <= '9') || c == '_' ||
    c == '\U{00AA}' || c == '\U{00B5}' || c == '\U{00BA}' ||
    ('\U{00C0}' <= c <= '\U{00FF}' && c != '\U{00D7}' && c != '\U{00F7}') ||
    ('\U{0100}' <= c && !IsWhiteSpace(c) &&
     !('\U{2000}' <= c <= '\U{2BFF}') && !('\U{3000}' <= c <= '\U{303F}') && !IsSupplementary(c))
  }

  /** The characters the pattern `[^\w @-]` does not match. */
  predicate IsKept(c: char)
  {
    IsWordChar(c) || c == ' ' || c == '@' || c == '-'
  }

  /** `StripNonAlpha.Replace(s, string.Empty)`. */
  function StripNonAlpha(s: string): (r: string)
    ensures forall i :: 0 <= i < |r| ==> IsKept(r[i])
  {
    Filter(IsKept, s)
  }

  /** Stripping leaves a string of kept characters as it is. */
  lemma {:induction false} StripNonAlphaKeeps(s: string)
    requires forall i :: 0 <= i < |s| ==> IsKept(s[i])
    ensures StripNonAlpha(s) == s
  {
    if s != [] {
      StripNonAlphaKeeps(s[1..]);
      assert s == [s[0]] + s[1..];
    }
  }

  /** The stripping step is idempotent and never lengthens its input. */
  lemma StripNonAlphaIdempotent(s: string)
    ensures StripNonAlpha(StripNonAlpha(s)) == StripNonAlpha(s)
    ensures |StripNonAlpha(s)| <= |s|
  {
    StripNonAlphaKeeps(StripNonAlpha(s));
  }

  /** `ExtractWords`: "" for blank input, else a space and the stripped input. */
  function ExtractWords(source: string): (r: string)
  {
    if IsBlank(source) then "" else " " + StripNonAlpha(source)
  }

  /**
   * What `ExtractWords` yields: nothing for blank input; otherwise a leading
   * space followed by the kept characters of the input in their order, so
   * never a double quote or a comma.
   */
  lemma ExtractWordsShape(source: string)
    ensures IsBlank(source) <==> ExtractWords(source) == ""
    ensures !IsBlank(source) ==>
              ExtractWords(source)[0] == ' ' &&
              ExtractWords(source)[1..] == Filter(IsKept, source)
    ensures '"' !in ExtractWords(source) && ',' !in ExtractWords(source)
  {
    var r := ExtractWords(source);
    if !IsBlank(source) {
      assert r[1..] == StripNonAlpha(source);
      assert !IsKept('"') && !IsKept(',');
      assert forall c :: c in r[1..] ==> IsKept(c);
      assert r == [' '] + r[1..];
    }
  }

  /** `Featurized`: the name of the featurised column of a text column. */
  function Featurized(source: string): (r: string)
    ensures |r| == |source| + 10 && r[..|source|] == source && r[|source|..] == "Featurized"
  {
    source + "Featurized"
  }

  /** A name that ends in the suffix `Featurized` appends. */
  predicate HasFeaturizedSuffix(name: string)
  {
    |name| >= 10 && name[|name| - 10..] == "Featurized"
  }

  /**
   * Distinct columns get distinct featurised names, and a featurised name is
   * one of the columns only when that column is another's name with the suffix.
   */
  lemma FeaturizedColumnsAreNew(columns: seq<string>)
    ensures NoDuplicates(columns) ==> NoDuplicates(Map(Featurized, columns))
    ensures forall i, j :: 0 <= i < |columns| && 0 <= j < |columns| ==>
              (Map(Featurized, columns)[i] == columns[j] <==>
               HasFeaturizedSuffix(columns[j]) && columns[j][..|columns[j]| - 10] == columns[i])
  {
  }

  /**
   * The specification of `NormalizeWhiteSpace`'s loop: `skip` is true inside
   * a run of whitespace; the first character of each run is kept as it is,
   * the rest of the run dropped.
   */
  function CollapseFrom(s: string, skip: bool): string
  {
    if s == [] then []
    else if IsWhiteSpace(s[0]) then
      if skip then CollapseFrom(s[1..], true) else [s[0]] + CollapseFrom(s[1..], true)
    else [s[0]] + CollapseFrom(s[1..], false)
  }

  function NormalizedWhiteSpace(s: string): string
  {
    Trim(CollapseFrom(s, false))
  }

  ghost predicate NoAdjacentWhiteSpace(s: string)
  {
    forall i :: 0 < i < |s| ==> !IsWhiteSpace(s[i - 1]) || !IsWhiteSpace(s[i])
  }

  predicate NotWhiteSpace(c: char)
  {
    !IsWhiteSpace(c)
  }

  /**
   * `NormalizeWhiteSpace`, in place on the character array as the source
   * does it: the write index never passes the read index.
   */
  method NormalizeWhiteSpace(input: string) returns (r: string)
    ensures r == NormalizedWhiteSpace(input)
    ensures |r| <= |input|
  {
    var src := new char[|input|](k requires 0 <= k < |input| => input[k]);
    var index := CollapseInPlace(src, input);
    r := Trim(src[..index]);
  }

  /**
   * The loop of `NormalizeWhiteSpace`: the first `index` cells of `src`
   * end as the input with each whitespace run cut to its first character.
   */
  method CollapseInPlace(src: array<char>, input: string) returns (index: nat)
    requires src[..] == input
    modifies src
    ensures index <= src.Length
    ensures src[..index] == CollapseFrom(input, false)
  {
    var len := src.Length;
    var skip := false;
    index := 0;
    for i := 0 to len
      invariant index <= i
      invariant forall k :: i <= k < len ==> src[k] == input[k]
      invariant src[..index] + CollapseFrom(input[i..], skip) == CollapseFrom(input, false)
    {
      var ch := src[i];
      ghost var done, before := src[..index], skip;
      assert input[i..][1..] == input[i + 1..];
      if IsWhiteSpace(ch) {
        if skip {
          assert done + CollapseFrom(input[i + 1..], true) == CollapseFrom(input, false) by {
            CollapseStep(done, input[i..], skip, CollapseFrom(input, false));
          }
          continue;
        }
        src[index] := ch;
        index := index + 1;
        skip := true;
      } else {
        skip := false;
        src[index] := ch;
        index := index + 1;
      }
      assert src[..index] + CollapseFrom(input[i + 1..], skip) == CollapseFrom(input, false) by {
        assert src[..index] == done + [ch];
        CollapseStep(done, input[i..], before, CollapseFrom(input, false));
      }
    }
    assert input[len..] == [];
    assert src[..index] + [] == src[..index];
  }

  /** One step of the loop above keeps its invariant. */
  lemma CollapseStep(done: string, s: string, skip: bool, target: string)
    requires s != [] && done + CollapseFrom(s, skip) == target
    ensures IsWhiteSpace(s[0]) && skip ==> done + CollapseFrom(s[1..], true) == target
    ensures !(IsWhiteSpace(s[0]) && skip) ==>
              (done + [s[0]]) + CollapseFrom(s[1..], IsWhiteSpace(s[0])) == target
  {
    if !(IsWhiteSpace(s[0]) && skip) {
      assert CollapseFrom(s, skip) == [s[0]] + CollapseFrom(s[1..], IsWhiteSpace(s[0]));
    }
  }

  lemma {:induction false} CollapseShape(s: string, skip: bool)
    ensures NoAdjacentWhiteSpace(CollapseFrom(s, skip))
    ensures skip ==> CollapseFrom(s, skip) == [] || !IsWhiteSpace(CollapseFrom(s, skip)[0])
  {
    if s != [] {
      CollapseShape(s[1..], IsWhiteSpace(s[0]));
      CollapseShape(s[1..], true);
    }
  }

  /** Collapsing leaves a string with no run of whitespace unchanged. */
  lemma {:induction false} CollapseKeeps(s: string, skip: bool)
    requires NoAdjacentWhiteSpace(s)
    requires skip ==> s == [] || !IsWhiteSpace(s[0])
    ensures CollapseFrom(s, skip) == s
  {
    if s != [] {
      CollapseKeeps(s[1..], IsWhiteSpace(s[0]));
      assert s == [s[0]] + s[1..];
    }
  }

  lemma {:induction false} CollapseKeepsText(s: string, skip: bool)
    ensures Filter(NotWhiteSpace, CollapseFrom(s, skip)) == Filter(NotWhiteSpace, s)
  {
    if s != [] {
      CollapseKeepsText(s[1..], IsWhiteSpace(s[0]));
      var c := CollapseFrom(s[1..], IsWhiteSpace(s[0]));
      if IsWhiteSpace(s[0]) && !skip {
        assert CollapseFrom(s, skip) == [s[0]] + c;
        assert ([s[0]] + c)[1..] == c;
      } else if !IsWhiteSpace(s[0]) {
        assert CollapseFrom(s, skip) == [s[0]] + c;
        assert ([s[0]] + c)[1..] == c;
      }
    }
  }

  lemma {:induction false} AllWhiteSpaceHasNoText(s: string)
    requires IsBlank(s)
    ensures Filter(NotWhiteSpace, s) == []
  {
    if s != [] {
      AllWhiteSpaceHasNoText(s[1..]);
    }
  }

  lemma TrimStartKeepsText(s: string)
    ensures Filter(NotWhiteSpace, TrimStart(s)) == Filter(NotWhiteSpace, s)
  {
    var t := TrimStart(s);
    TrimStartShape(s);
    var a := |s| - |t|;
    assert s == s[..a] + t;
    FilterAppend(NotWhiteSpace, s[..a], t);
    assert IsBlank(s[..a]);
    AllWhiteSpaceHasNoText(s[..a]);
  }

  lemma TrimEndKeepsText(t: string)
    ensures Filter(NotWhiteSpace, TrimEnd(t)) == Filter(NotWhiteSpace, t)
  {
    var u := TrimEnd(t);
    TrimEndShape(t);
    assert t == u + t[|u|..];
    FilterAppend(NotWhiteSpace, u, t[|u|..]);
    assert IsBlank(t[|u|..]);
    AllWhiteSpaceHasNoText(t[|u|..]);
  }

  /** Trimming removes whitespace only. */
  lemma TrimKeepsText(s: string)
    ensures Filter(NotWhiteSpace, Trim(s)) == Filter(NotWhiteSpace, s)
  {
    TrimStartKeepsText(s);
    TrimEndKeepsText(TrimStart(s));
  }

  /**
   * The result of `NormalizeWhiteSpace` has no two adjacent whitespace
   * characters, none at either end, and the same non-whitespace characters
   * in the same order as the input.
   */
  lemma NormalizedWhiteSpaceShape(s: string)
    ensures NoAdjacentWhiteSpace(NormalizedWhiteSpace(s))
    ensures var r := NormalizedWhiteSpace(s);
            r == [] || (!IsWhiteSpace(r[0]) && !IsWhiteSpace(r[|r| - 1]))
    ensures Filter(NotWhiteSpace, NormalizedWhiteSpace(s)) == Filter(NotWhiteSpace, s)
  {
    var c := CollapseFrom(s, false);
    CollapseShape(s, false);
    var t := TrimStart(c);
    var u := TrimEnd(t);
    TrimStartShape(c);
    TrimEndShape(t);
    TrimShape(c);
    var a := |c| - |t|;
    assert u == c[a..a + |u|];
    forall i | 0 < i < |u|
      ensures !IsWhiteSpace(u[i - 1]) || !IsWhiteSpace(u[i])
    {
      assert u[i - 1] == c[a + i - 1] && u[i] == c[a + i];
    }
    CollapseKeepsText(s, false);
    TrimKeepsText(c);
  }

  /** Normalising whitespace brings in no character that is not whitespace. */
  lemma NormalizedAddsNothing(s: string)
    ensures forall c :: NotWhiteSpace(c) && c !in s ==> c !in NormalizedWhiteSpace(s)
  {
    var collapsed := CollapseFrom(s, false);
    CollapseKeepsText(s, false);
    TrimKeepsText(collapsed);
    forall c | NotWhiteSpace(c) && c !in s ensures c !in NormalizedWhiteSpace(s) {
      assert c !in Filter(NotWhiteSpace, Trim(collapsed));
    }
  }

  /** Normalising twice is normalising once. */
  lemma NormalizedWhiteSpaceIdempotent(s: string)
    ensures NormalizedWhiteSpace(NormalizedWhiteSpace(s)) == NormalizedWhiteSpace(s)
  {
    var r := NormalizedWhiteSpace(s);
    NormalizedWhiteSpaceShape(s);
    CollapseKeeps(r, false);
    TrimNoOp(r);
  }

  /** `CheckNotNull`: an `ArgumentNullException` naming the argument when the value is null. */
  function CheckNotNull<T>(value: Option<T>, argName: string): (r: Option<Exception>)
    ensures r.Some? <==> value.None?
    ensures r.Some? ==> r.value == ArgumentNullException(argName)
  {
    if value.None? then Some(ArgumentNullException(argName)) else None
  }

  /**
   * `ForEach`: both arguments are checked for null, the list first; then the
   * action runs on each element in order. The action is a function here and
   * the result lists what each call produced, in call order.
   */
  method ForEach<T, U>(list: Option<seq<T>>, action: Option<T -> U>) returns (r: Result<seq<U>, Exception>)
    ensures list.None? ==> r == Failure(ArgumentNullException("list"))
    ensures list.Some? && action.None? ==> r == Failure(ArgumentNullException("action"))
    ensures list.Some? && action.Some? ==>
              r.Success? && |r.value| == |list.value| &&
              forall i :: 0 <= i < |list.value| ==> r.value[i] == action.value(list.value[i])
  {
    var listCheck := CheckNotNull(list, "list");
    if listCheck.Some? {
      return Failure(listCheck.value);
    }
    var actionCheck := CheckNotNull(action, "action");
    if actionCheck.Some? {
      return Failure(actionCheck.value);
    }
    var items, f := list.value, action.value;
    var calls: seq<U> := [];
    for i := 0 to |items|
      invariant |calls| == i
      invariant forall j :: 0 <= j < i ==> calls[j] == f(items[j])
    {
      calls := calls + [f(items[i])];
    }
    r := Success(calls);
  }
}
