/**
 * The .NET string operations the core relies on, over `seq<char>`:
 * `char.IsWhiteSpace`, `string.IsNullOrWhiteSpace`, `Trim`, `Replace(x, "")`,
 * `Split(char)`, `string.Join(char, ...)`, `StartsWith` and the decimal
 * `ToString` of integers.
 */
module Text {

  /** The 25 characters `char.IsWhiteSpace` accepts; `NormalizeWhiteSpace` lists the same 25. */
  predicate IsWhiteSpace(c: char)
  {
    c == ' ' || c == '\U{00A0}' || c == '\U{1680}' ||
    ('\U{2000}' <= c <= '\U{200A}') ||
    c == '\U{202F}' || c == '\U{205F}' || c == '\U{3000}' ||
    c == '\U{2028}' || c == '\U{2029}' ||
    ('\t' <= c <= '\r') ||
    c == '\U{0085}'
  }

  /** `string.IsNullOrWhiteSpace`: a null string is modelled as the empty one. */
  predicate IsBlank(s: string)
  {
    forall i :: 0 <= i < |s| ==> IsWhiteSpace(s[i])
  }

  /** `TrimStart()`: drops the leading whitespace and nothing else (see `TrimStartShape`). */
  function TrimStart(s: string): (r: string)
    ensures |r| <= |s|
  {
    if s != [] && IsWhiteSpace(s[0]) then TrimStart(s[1..]) else s
  }

  /** `TrimStart` keeps a suffix, drops only whitespace, and stops at the first character that is not. */
  lemma {:induction false} TrimStartShape(s: string)
    ensures var r := TrimStart(s);
            r == s[|s| - |r|..] &&
            (forall i :: 0 <= i < |s| - |r| ==> IsWhiteSpace(s[i])) &&
            (r == [] || !IsWhiteSpace(r[0]))
  {
    if s != [] && IsWhiteSpace(s[0]) {
      TrimStartShape(s[1..]);
    }
  }

  /** `TrimEnd()`: drops the trailing whitespace and nothing else (see `TrimEndShape`). */
  function TrimEnd(s: string): (r: string)
    ensures |r| <= |s|
  {
    if s != [] && IsWhiteSpace(s[|s| - 1]) then TrimEnd(s[..|s| - 1]) else s
  }

  /** `TrimEnd` keeps a prefix, drops only whitespace, and stops at the last character that is not. */
  lemma {:induction false} TrimEndShape(s: string)
    ensures var r := TrimEnd(s);
            r == s[..|r|] &&
            (forall i :: |r| <= i < |s| ==> IsWhiteSpace(s[i])) &&
            (r == [] || !IsWhiteSpace(r[|r| - 1]))
  {
    if s != [] && IsWhiteSpace(s[|s| - 1]) {
      TrimEndShape(s[..|s| - 1]);
      assert s[..|s| - 1][..|TrimEnd(s)|] == s[..|TrimEnd(s)|];
    }
  }

  /** `Trim()`. */
  function Trim(s: string): (r: string)
    ensures |r| <= |s|
  {
    TrimEnd(TrimStart(s))
  }

  /** `Trim` leaves no whitespace at either end, and is empty exactly for a blank string. */
  lemma TrimShape(s: string)
    ensures var r := Trim(s);
            (r == [] || (!IsWhiteSpace(r[0]) && !IsWhiteSpace(r[|r| - 1]))) &&
            (r == [] <==> IsBlank(s))
  {
    var t := TrimStart(s);
    TrimStartShape(s);
    TrimEndShape(t);
    var r := Trim(s);
    if r != [] {
      assert r[0] == t[0];
    }
    if t != [] {
      assert !IsWhiteSpace(t[0]);
      assert t[0] == s[|s| - |t|];
    }
  }

  /** `Trim` keeps a slice of its input, so it brings in no character. */
  lemma TrimAddsNothing(s: string, c: char)
    requires c !in s
    ensures c !in Trim(s)
  {
    var t := TrimStart(s);
    TrimStartShape(s);
    TrimEndShape(t);
  }

  /** A string without leading or trailing whitespace is its own trim. */
  lemma TrimNoOp(s: string)
    requires s == [] || (!IsWhiteSpace(s[0]) && !IsWhiteSpace(s[|s| - 1]))
    ensures Trim(s) == s
  {
    TrimStartShape(s);
    var t := TrimStart(s);
    assert |t| == |s|;
    TrimEndShape(t);
  }

  /** `Replace(c.ToString(), string.Empty)`: every occurrence of `c` removed. */
  function RemoveChar(s: string, c: char): (r: string)
    ensures c !in r
    ensures |r| <= |s|
    ensures c !in s ==> r == s
    ensures forall x :: x in r <==> x in s && x != c
  {
    if s == [] then []
    else if s[0] == c then RemoveChar(s[1..], c)
    else [s[0]] + RemoveChar(s[1..], c)
  }

  /** `StartsWith(c.ToString())`. */
  predicate StartsWith(s: string, c: char)
  {
    |s| > 0 && s[0] == c
  }

  /** A character above U+FFFF, which UTF-16 stores as a surrogate pair. */
  predicate IsSupplementary(c: char)
  {
    c > '\U{FFFF}'
  }

  /** `string.Length`: the number of UTF-16 code units, two for each supplementary character. */
  function Utf16Length(s: string): (r: nat)
    ensures |s| <= r <= 2 * |s|
  {
    if s == [] then 0
    else (if IsSupplementary(s[0]) then 2 else 1) + Utf16Length(s[1..])
  }

  /** The UTF-16 length is the character count exactly when no character needs a surrogate pair. */
  lemma {:induction false} Utf16LengthIsCount(s: string)
    ensures Utf16Length(s) == |s| <==> forall i :: 0 <= i < |s| ==> !IsSupplementary(s[i])
  {
    if s != [] {
      Utf16LengthIsCount(s[1..]);
      assert forall i :: 1 <= i < |s| ==> s[i] == s[1..][i - 1];
    }
  }

  /** `Split(sep)`: n separators give n + 1 parts, empty ones included. */
  function Split(s: string, sep: char): (parts: seq<string>)
    ensures |parts| >= 1
    ensures forall i :: 0 <= i < |parts| ==> sep !in parts[i]
  {
    if s == [] then [""]
    else
      var rest := Split(s[1..], sep);
      if s[0] == sep then [""] + rest
      else [[s[0]] + rest[0]] + rest[1..]
  }

  /** `string.Join(sep, parts)`. */
  function Join(sep: char, parts: seq<string>): string
  {
    if parts == [] then ""
    else if |parts| == 1 then parts[0]
    else parts[0] + [sep] + Join(sep, parts[1..])
  }

  /** Joining the parts of a split gives back the string. */
  lemma {:induction false} JoinSplit(s: string, sep: char)
    ensures Join(sep, Split(s, sep)) == s
  {
    if s != [] {
      var rest := Split(s[1..], sep);
      JoinSplit(s[1..], sep);
      if s[0] == sep {
        assert Split(s, sep) == [""] + rest;
        assert Join(sep, [""] + rest) == [sep] + Join(sep, rest);
      } else {
        var parts := [[s[0]] + rest[0]] + rest[1..];
        assert Split(s, sep) == parts;
        if |rest| == 1 {
          assert Join(sep, parts) == [s[0]] + rest[0];
        } else {
          assert parts[1..] == rest[1..];
          assert Join(sep, parts) == [s[0]] + rest[0] + [sep] + Join(sep, rest[1..]);
        }
      }
    }
  }

  /** A string free of the separator splits into itself alone. */
  lemma {:induction false} SplitNoSep(p: string, sep: char)
    requires sep !in p
    ensures Split(p, sep) == [p]
  {
    if p != [] {
      SplitNoSep(p[1..], sep);
      assert [p[0]] + p[1..] == p;
    }
  }

  /** Splitting `p + sep + t` with `p` free of the separator peels off `p`. */
  lemma {:induction false} SplitAfter(p: string, t: string, sep: char)
    requires sep !in p
    ensures Split(p + [sep] + t, sep) == [p] + Split(t, sep)
  {
    if p == [] {
      assert p + [sep] + t == [sep] + t;
      assert ([sep] + t)[1..] == t;
    } else {
      var s := p + [sep] + t;
      assert s[1..] == p[1..] + [sep] + t;
      SplitAfter(p[1..], t, sep);
      assert [p[0]] + p[1..] == p;
    }
  }

  /** Splitting a join of separator-free parts gives back the parts. */
  lemma {:induction false} SplitJoin(parts: seq<string>, sep: char)
    requires |parts| >= 1
    requires forall i :: 0 <= i < |parts| ==> sep !in parts[i]
    ensures Split(Join(sep, parts), sep) == parts
  {
    if |parts| == 1 {
      SplitNoSep(parts[0], sep);
    } else {
      SplitJoin(parts[1..], sep);
      SplitAfter(parts[0], Join(sep, parts[1..]), sep);
    }
  }

  predicate IsDigit(c: char)
  {
    '0' <= c <= '9'
  }

  function DigitChar(d: nat): (c: char)
    requires d < 10
    ensures IsDigit(c)
  {
    ('0' as int + d) as char
  }

  /** The decimal `ToString()` of a non-negative integer. */
  function NatToString(n: nat): (s: string)
    ensures |s| >= 1
    ensures forall i :: 0 <= i < |s| ==> IsDigit(s[i])
    ensures s[0] == '0' ==> n == 0
  {
    if n < 10 then [DigitChar(n)] else NatToString(n / 10) + [DigitChar(n % 10)]
  }

  /** The value of a string of decimal digits. */
  function DigitsValue(s: string): nat
    requires forall i :: 0 <= i < |s| ==> IsDigit(s[i])
  {
    if s == [] then 0
    else
      assert IsDigit(s[|s| - 1]);
      10 * DigitsValue(s[..|s| - 1]) + (s[|s| - 1] as int - '0' as int)
  }

  /** Reading the decimal text back gives the number. */
  lemma {:induction false} NatToStringRoundTrip(n: nat)
    ensures DigitsValue(NatToString(n)) == n
  {
    if n >= 10 {
      NatToStringRoundTrip(n / 10);
      var s := NatToString(n);
      assert s[..|s| - 1] == NatToString(n / 10);
    }
  }

  /** The decimal `ToString()` of an `int`, with a leading `-` when negative. */
  function IntToString(n: int): (s: string)
    ensures |s| >= 1
    ensures n >= 0 ==> s == NatToString(n)
    ensures n < 0 ==> s[0] == '-' && s[1..] == NatToString(-n)
  {
    if n < 0 then "-" + NatToString(-n) else NatToString(n)
  }
}
