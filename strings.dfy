/** The JavaScript string operations the scripts rely on: trim, includes,
    startsWith, ASCII case mapping, decimal digits, UTF-16 length, split and join. */
module Strings {
  import opened Base

  /** ECMAScript WhiteSpace and LineTerminator code points: what String.prototype.trim
      removes and what the regular-expression class \s matches. */
  predicate IsSpace(c: char) {
    || c == '\t' || c == '\n' || c == '\U{000B}' || c == '\U{000C}' || c == '\r' || c == ' '
    || c == '\U{00A0}' || c == '\U{1680}' || ('\U{2000}' <= c <= '\U{200A}')
    || c == '\U{2028}' || c == '\U{2029}' || c == '\U{202F}' || c == '\U{205F}'
    || c == '\U{3000}' || c == '\U{FEFF}'
  }

  predicate IsNotSpace(c: char) {
    !IsSpace(c)
  }

  /** Where the text starts once the white space from i on is skipped. */
  function SkipSpace(s: string, i: nat): (j: nat)
    requires i <= |s|
    ensures i <= j <= |s|
    ensures forall k :: i <= k < j ==> IsSpace(s[k])
    ensures j == |s| || !IsSpace(s[j])
    decreases |s| - i
  {
    if i < |s| && IsSpace(s[i]) then SkipSpace(s, i + 1) else i
  }

  /** Where the white space that ends s[..j] begins, looking no further back than lo. */
  function SkipSpaceBack(s: string, lo: nat, j: nat): (k: nat)
    requires lo <= j <= |s|
    ensures lo <= k <= j
    ensures forall m :: k <= m < j ==> IsSpace(s[m])
    ensures k == lo || !IsSpace(s[k - 1])
    decreases j
  {
    if lo < j && IsSpace(s[j - 1]) then SkipSpaceBack(s, lo, j - 1) else j
  }

  /** Where Trim's result begins in s. */
  function TrimFrom(s: string): nat {
    SkipSpace(s, 0)
  }

  /** Where Trim's result ends in s. */
  function TrimTo(s: string): nat {
    SkipSpaceBack(s, TrimFrom(s), |s|)
  }

  /** String.prototype.trim: leading and trailing white space removed. */
  function Trim(s: string): string {
    s[TrimFrom(s)..TrimTo(s)]
  }

  /** Trim cuts white space, and only white space, from both ends: the result is
      the part of s between a white-space prefix and a white-space suffix, and
      neither starts nor ends with white space. */
  lemma TrimShape(s: string)
    ensures var r, i := Trim(s), TrimFrom(s);
      && i + |r| <= |s| && s[i..i + |r|] == r
      && (forall k :: 0 <= k < i ==> IsSpace(s[k]))
      && (forall k :: i + |r| <= k < |s| ==> IsSpace(s[k]))
      && (r == [] || (!IsSpace(r[0]) && !IsSpace(r[|r| - 1])))
  {
    var a, b := TrimFrom(s), TrimTo(s);
    var r := Trim(s);
    if r != [] {
      assert r[0] == s[a];
      assert r[|r| - 1] == s[b - 1];
    }
  }

  /** Trimming twice is trimming once. */
  lemma TrimIdempotent(s: string)
    ensures Trim(Trim(s)) == Trim(s)
  {
    TrimShape(s);
    var r := Trim(s);
    assert TrimFrom(r) == 0;
    assert TrimTo(r) == |r|;
    assert r[0..|r|] == r;
  }

  /** A character that is not white space survives trimming. */
  lemma TrimKeeps(s: string, k: nat)
    requires k < |s| && !IsSpace(s[k])
    ensures s[k] in Trim(s)
  {
    var a, b := TrimFrom(s), TrimTo(s);
    assert a <= k < b;
    assert Trim(s)[k - a] == s[k];
  }

  /** String.prototype.startsWith. */
  predicate StartsWith(s: string, p: string) {
    |p| <= |s| && s[..|p|] == p
  }

  /** String.prototype.endsWith. */
  predicate EndsWith(s: string, p: string) {
    |p| <= |s| && s[|s| - |p|..] == p
  }

  /** String.prototype.includes. */
  predicate Contains(s: string, p: string)
    decreases |s|
  {
    StartsWith(s, p) || (s != [] && Contains(s[1..], p))
  }

  /** includes holds exactly when p occurs at some position of s. */
  lemma {:induction false} ContainsAt(s: string, p: string)
    ensures Contains(s, p) <==> exists i :: 0 <= i <= |s| && StartsWith(s[i..], p)
  {
    if s != [] {
      ContainsAt(s[1..], p);
      if StartsWith(s, p) {
        assert s[0..] == s;
      }
      if Contains(s[1..], p) {
        var i :| 0 <= i <= |s[1..]| && StartsWith(s[1..][i..], p);
        assert s[1..][i..] == s[i + 1..];
      }
      if exists i :: 0 <= i <= |s| && StartsWith(s[i..], p) {
        var i :| 0 <= i <= |s| && StartsWith(s[i..], p);
        if i == 0 {
          assert s[0..] == s;
        } else {
          assert s[1..][i - 1..] == s[i..];
          assert 0 <= i - 1 <= |s[1..]| && StartsWith(s[1..][i - 1..], p);
        }
      }
    } else {
      assert s[0..] == s;
    }
  }

  /** A string contains only strings no longer than itself. */
  lemma {:induction false} ContainsLength(s: string, p: string)
    requires Contains(s, p)
    ensures |p| <= |s|
  {
    if !StartsWith(s, p) {
      ContainsLength(s[1..], p);
    }
  }

  /** A single character is included exactly when it is an element. */
  lemma {:induction false} ContainsChar(s: string, c: char)
    ensures Contains(s, [c]) <==> c in s
  {
    if s != [] {
      ContainsChar(s[1..], c);
      assert s == [s[0]] + s[1..];
    }
  }

  predicate IsAsciiUpper(c: char) { 'A' <= c <= 'Z' }
  predicate IsAsciiLower(c: char) { 'a' <= c <= 'z' }
  predicate IsDigit(c: char) { '0' <= c <= '9' }

  function UpperChar(c: char): char {
    if IsAsciiLower(c) then (c as int - 'a' as int + 'A' as int) as char else c
  }

  function LowerChar(c: char): char {
    if IsAsciiUpper(c) then (c as int - 'A' as int + 'a' as int) as char else c
  }

  /** toUpperCase restricted to the ASCII letters. */
  function AsciiUpper(s: string): (r: string)
    ensures |r| == |s|
    ensures forall i :: 0 <= i < |s| ==> r[i] == UpperChar(s[i])
  {
    seq(|s|, i requires 0 <= i < |s| => UpperChar(s[i]))
  }

  /** toLowerCase restricted to the ASCII letters. */
  function AsciiLower(s: string): (r: string)
    ensures |r| == |s|
    ensures forall i :: 0 <= i < |s| ==> r[i] == LowerChar(s[i])
  {
    seq(|s|, i requires 0 <= i < |s| => LowerChar(s[i]))
  }

  predicate AllDigits(s: string) {
    forall i :: 0 <= i < |s| ==> IsDigit(s[i])
  }

  function DigitValue(c: char): nat
    requires IsDigit(c)
  {
    c as int - '0' as int
  }

  function DigitChar(d: nat): (c: char)
    requires d < 10
    ensures IsDigit(c) && DigitValue(c) == d
  {
    (d + '0' as int) as char
  }

  /** The value of a string of decimal digits, read from the left as parseInt does. */
  function DigitsValue(s: string): nat
    requires AllDigits(s)
  {
    if s == [] then 0 else DigitsValue(s[..|s| - 1]) * 10 + DigitValue(s[|s| - 1])
  }

  /** The decimal numeral of n, without leading zeros (String(n)). */
  function ShowNat(n: nat): (r: string)
    ensures r != [] && AllDigits(r)
  {
    if n < 10 then [DigitChar(n)] else ShowNat(n / 10) + [DigitChar(n % 10)]
  }

  /** Reading a numeral gives back the number. */
  lemma {:induction false} DigitsValueShowNat(n: nat)
    ensures DigitsValue(ShowNat(n)) == n
  {
    if n >= 10 {
      DigitsValueShowNat(n / 10);
      var s := ShowNat(n);
      assert s[..|s| - 1] == ShowNat(n / 10);
    }
  }

  /** A string of digits has a positive value exactly when one of its digits is not '0'. */
  lemma {:induction false} DigitsValuePositive(s: string)
    requires AllDigits(s)
    ensures DigitsValue(s) > 0 <==> exists i :: 0 <= i < |s| && s[i] != '0'
  {
    if s != [] {
      var t := s[..|s| - 1];
      DigitsValuePositive(t);
      if exists i :: 0 <= i < |t| && t[i] != '0' {
        var i :| 0 <= i < |t| && t[i] != '0';
        assert s[i] == t[i];
      }
      if exists i :: 0 <= i < |s| && s[i] != '0' {
        var i :| 0 <= i < |s| && s[i] != '0';
        if i < |t| {
          assert t[i] == s[i];
        }
      }
    }
  }

  /** Length in UTF-16 code units, JavaScript's String.prototype.length: a code
      point above U+FFFF takes a surrogate pair. */
  function Utf16Length(s: string): (n: nat)
    ensures |s| <= n <= 2 * |s|
  {
    if s == [] then 0
    else Utf16Length(s[..|s| - 1]) + (if s[|s| - 1] as int > 0xFFFF then 2 else 1)
  }

  /** Position of the first occurrence of d in s. */
  function IndexOf(s: string, d: char): (i: nat)
    requires d in s
    ensures i < |s| && s[i] == d && d !in s[..i]
  {
    if s[0] == d then 0
    else
      assert d in s[1..] by { assert s == [s[0]] + s[1..]; }
      var j := IndexOf(s[1..], d);
      assert s[..j + 1] == [s[0]] + s[1..][..j];
      j + 1
  }

  /** The first occurrence is the one with none before it. */
  lemma IndexOfUnique(s: string, d: char, i: nat)
    requires i < |s| && s[i] == d && d !in s[..i]
    ensures IndexOf(s, d) == i
  {
  }

  /** String.prototype.split with a one-character separator: the pieces between
      separators, including empty ones; never an empty list. */
  function Split(s: string, d: char): (parts: seq<string>)
    ensures |parts| >= 1
    ensures forall k :: 0 <= k < |parts| ==> d !in parts[k]
    decreases |s|
  {
    if d in s then
      var i := IndexOf(s, d);
      [s[..i]] + Split(s[i + 1..], d)
    else [s]
  }

  /** Array.prototype.join with a one-character separator; [].join(d) is "". */
  function Join(parts: seq<string>, d: char): string {
    if |parts| == 0 then ""
    else if |parts| == 1 then parts[0]
    else parts[0] + [d] + Join(parts[1..], d)
  }

  /** Joining the pieces of a split with the same separator gives back the string. */
  lemma {:induction false} JoinSplit(s: string, d: char)
    ensures Join(Split(s, d), d) == s
    decreases |s|
  {
    if d in s {
      var i := IndexOf(s, d);
      JoinSplit(s[i + 1..], d);
      var parts := Split(s, d);
      assert parts[1..] == Split(s[i + 1..], d);
      assert s == s[..i] + [d] + s[i + 1..];
    }
  }

  /** The first piece of a split is the text before the first separator. */
  lemma SplitFirst(s: string, d: char)
    ensures d in s ==> Split(s, d)[0] == s[..IndexOf(s, d)]
    ensures d !in s ==> Split(s, d) == [s]
  {
  }

  /** A string is the text before position i, the character at i, and the rest. */
  lemma Around(s: string, i: nat)
    requires i < |s|
    ensures s == s[..i] + [s[i]] + s[i + 1..]
  {
  }

  /** Around the first separator a split is the text before it, then the split
      of the rest. */
  lemma SplitHead(s: string, d: char)
    requires d in s
    ensures Split(s, d)[0] == s[..IndexOf(s, d)]
    ensures Split(s, d)[1..] == Split(s[IndexOf(s, d) + 1..], d)
  {
    var i := IndexOf(s, d);
    assert Split(s, d) == [s[..i]] + Split(s[i + 1..], d);
  }

  /** Number of occurrences of c in s. */
  function Occurrences(s: string, c: char): nat {
    if s == [] then 0 else (if s[0] == c then 1 else 0) + Occurrences(s[1..], c)
  }

  lemma {:induction false} OccurrencesAppend(a: string, b: string, c: char)
    ensures Occurrences(a + b, c) == Occurrences(a, c) + Occurrences(b, c)
  {
    if a == [] {
      assert a + b == b;
    } else {
      assert (a + b)[1..] == a[1..] + b;
      OccurrencesAppend(a[1..], b, c);
    }
  }

  lemma {:induction false} OccurrencesNone(s: string, c: char)
    requires c !in s
    ensures Occurrences(s, c) == 0
  {
    if s != [] {
      assert c !in s[1..];
      OccurrencesNone(s[1..], c);
    }
  }

  /** A split yields one piece more than there are separators. */
  lemma {:induction false} SplitCount(s: string, d: char)
    ensures |Split(s, d)| == Occurrences(s, d) + 1
    decreases |s|
  {
    if d in s {
      var i := IndexOf(s, d);
      SplitCount(s[i + 1..], d);
      assert s == s[..i] + ([d] + s[i + 1..]);
      OccurrencesAppend(s[..i], [d] + s[i + 1..], d);
      OccurrencesNone(s[..i], d);
      assert ([d] + s[i + 1..])[1..] == s[i + 1..];
    } else {
      OccurrencesNone(s, d);
    }
  }
}
