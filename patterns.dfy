/** The three regular expressions of the matchup extractor, as scans over a string:
      /(\d+)戦/                  a battle count
      /(\d+(\.\d+)?)%/           a percentage
      /width:\s*(\d+(\.\d+)?)%/  the percentage in a graph bar's inline style
    String.prototype.match without the g flag returns the match that starts at the
    leftmost position where one exists; each "...EndAt(s, i)" below decides whether
    a match starts at i and where it ends.

    Why anchored matching is this simple: \d+ and \s* are greedy, and giving back
    a digit (a space) leaves a digit (a space) where the pattern then needs
    '戦', '.', '%' or a digit, so no backtracking can succeed where the greedy
    attempt failed. Likewise (\.\d+)? is tried first and, when it fails, the
    fallback needs '%' where a '.' stands. */
module Patterns {
  import opened Base
  import opened Strings

  /** End of the run of ASCII digits (\d) that starts at i. */
  function DigitRunEnd(s: string, i: nat): (j: nat)
    requires i <= |s|
    ensures i <= j <= |s|
    ensures forall k :: i <= k < j ==> IsDigit(s[k])
    ensures j == |s| || !IsDigit(s[j])
    decreases |s| - i
  {
    if i < |s| && IsDigit(s[i]) then DigitRunEnd(s, i + 1) else i
  }

  /** A run of digits from i up to a non-digit at j ends at j. */
  lemma {:induction false} DigitRunEndAt(s: string, i: nat, j: nat)
    requires i <= j < |s| && !IsDigit(s[j])
    requires forall m :: i <= m < j ==> IsDigit(s[m])
    ensures DigitRunEnd(s, i) == j
    decreases j - i
  {
    if i < j {
      DigitRunEndAt(s, i + 1, j);
    }
  }

  /** A run of white space from i up to a non-space at j ends at j. */
  lemma {:induction false} SkipSpaceAt(s: string, i: nat, j: nat)
    requires i <= j < |s| && !IsSpace(s[j])
    requires forall m :: i <= m < j ==> IsSpace(s[m])
    ensures SkipSpace(s, i) == j
    decreases j - i
  {
    if i < j {
      SkipSpaceAt(s, i + 1, j);
    }
  }

  /** Digits followed by 戦: the text that /(\d+)戦/ matches. */
  predicate IsCountText(t: string) {
    |t| >= 2 && t[|t| - 1] == '戦' && AllDigits(t[..|t| - 1])
  }

  /** A decimal numeral as (\d+(\.\d+)?) matches it. */
  predicate IsNumber(n: string) {
    if '.' in n then
      var d := IndexOf(n, '.');
      0 < d < |n| - 1 && AllDigits(n[..d]) && AllDigits(n[d + 1..])
    else n != [] && AllDigits(n)
  }

  /** A decimal numeral followed by %: the text that /(\d+(\.\d+)?)%/ matches. */
  predicate IsPercentText(t: string) {
    |t| >= 2 && t[|t| - 1] == '%' && IsNumber(t[..|t| - 1])
  }

  /** End of the match of /(\d+)戦/ that starts at i, if one does. */
  function CountEndAt(s: string, i: nat): (r: Option<nat>)
    ensures r.Some? ==> i < r.value <= |s| && IsCountText(s[i..r.value])
  {
    if i >= |s| then None
    else
      var j := DigitRunEnd(s, i);
      if i < j < |s| && s[j] == '戦' then
        CountTextAt(s, i, j);
        Some(j + 1)
      else None
  }

  /** Digits from i to j, then 戦: a battle count text. */
  lemma CountTextAt(s: string, i: nat, j: nat)
    requires i < j < |s| && s[j] == '戦'
    requires forall m :: i <= m < j ==> IsDigit(s[m])
    ensures IsCountText(s[i..j + 1])
  {
    var n := s[i..j + 1][..j - i];
    assert n == s[i..j];
    assert forall m :: 0 <= m < |n| ==> n[m] == s[i + m];
  }

  /** /(\d+)戦/ matching s[i..e] is what the scan from i finds: the digits end
      where 戦 stands, so no other end is possible. */
  lemma CountEndAtSpec(s: string, i: nat, e: nat)
    requires i < e <= |s| && IsCountText(s[i..e])
    ensures CountEndAt(s, i) == Some(e)
  {
    var t := s[i..e];
    forall m | i <= m < e - 1
      ensures IsDigit(s[m])
    {
      assert s[m] == t[..|t| - 1][m - i];
    }
    assert s[e - 1] == t[|t| - 1];
    DigitRunEndAt(s, i, e - 1);
  }

  /** A match that starts right after a digit also starts at that digit. */
  lemma CountEndAtBack(s: string, i: nat)
    requires 0 < i <= |s| && IsDigit(s[i - 1]) && CountEndAt(s, i).Some?
    ensures CountEndAt(s, i - 1).Some?
  {
    assert DigitRunEnd(s, i - 1) == DigitRunEnd(s, i);
  }

  /** Where the leftmost match of /(\d+)戦/ starts. */
  function CountStart(s: string): (r: Option<nat>)
    ensures r.Some? ==> r.value < |s| && CountEndAt(s, r.value).Some?
    ensures r.Some? ==> forall k :: 0 <= k < r.value ==> CountEndAt(s, k).None?
    ensures r.None? ==> forall k :: 0 <= k < |s| ==> CountEndAt(s, k).None?
  {
    var starts := (k: nat) => CountEndAt(s, k).Some?;
    assert forall k :: starts(k) == CountEndAt(s, k).Some?;
    FirstAt(0, |s|, starts)
  }

  /** `text.match(/(\d+)戦/)?.[0]`: the leftmost battle count in the text. */
  function CountMatch(s: string): (r: Option<string>)
    ensures r.Some? ==> IsCountText(r.value) && Contains(s, r.value)
    ensures r.None? ==> forall k :: 0 < k < |s| && s[k] == '戦' ==> !IsDigit(s[k - 1])
  {
    match CountStart(s)
    case None =>
      NoCountEnd(s);
      None
    case Some(i) =>
      var e := CountEndAt(s, i).value;
      OccursAt(s, i, e);
      Some(s[i..e])
  }

  /** No count match anywhere: no digit stands right before a 戦. */
  lemma NoCountEnd(s: string)
    requires forall k :: 0 <= k < |s| ==> CountEndAt(s, k).None?
    ensures forall k :: 0 < k < |s| && s[k] == '戦' ==> !IsDigit(s[k - 1])
  {
    forall k | 0 < k < |s| && s[k] == '戦' && IsDigit(s[k - 1])
      ensures CountEndAt(s, k - 1).Some?
    {
      assert DigitRunEnd(s, k - 1) == k;
    }
  }

  /** A slice occurs in the string it is cut from. */
  lemma OccursAt(s: string, i: nat, e: nat)
    requires i <= e <= |s|
    ensures Contains(s, s[i..e])
  {
    assert StartsWith(s[i..], s[i..e]);
    ContainsAt(s, s[i..e]);
  }

  /** The digits of a slice are digits of the string. */
  lemma SliceDigits(s: string, i: nat, e: nat)
    requires i <= e <= |s| && AllDigits(s[i..e])
    ensures forall m :: i <= m < e ==> IsDigit(s[m])
  {
    forall m | i <= m < e
      ensures IsDigit(s[m])
    {
      assert s[m] == s[i..e][m - i];
    }
  }

  /** m is the text /(\d+)戦/ matches in s when the match starts at i: m occurs at
      i, is digits and 戦 with the whole run of digits before 戦, and no text
      that the expression matches starts before i. */
  predicate IsLeftmostCount(s: string, i: nat, m: string) {
    && i + |m| <= |s| && s[i..i + |m|] == m && IsCountText(m)
    && (i == 0 || !IsDigit(s[i - 1]))
    && forall k, e :: 0 <= k < i && k < e <= |s| ==> !IsCountText(s[k..e])
  }

  /** The battle count found is the leftmost match of the expression, with its
      whole digit run; none is found only when nothing in the text matches. */
  lemma CountMatchSpec(s: string)
    ensures CountMatch(s).Some? ==> exists i :: IsLeftmostCount(s, i, CountMatch(s).value)
    ensures CountMatch(s).None? ==> forall k, e :: 0 <= k < e <= |s| ==> !IsCountText(s[k..e])
  {
    forall k, e | 0 <= k < e <= |s| && IsCountText(s[k..e])
      ensures CountEndAt(s, k).Some?
    {
      CountEndAtSpec(s, k, e);
    }
    if CountStart(s).Some? {
      var i := CountStart(s).value;
      var e := CountEndAt(s, i).value;
      if 0 < i && IsDigit(s[i - 1]) {
        CountEndAtBack(s, i);
      }
      assert IsLeftmostCount(s, i, s[i..e]);
    }
  }

  /** End of the match of /(\d+(\.\d+)?)%/ that starts at i, if one does. */
  function PercentEndAt(s: string, i: nat): (r: Option<nat>)
    ensures r.Some? ==> i < r.value <= |s| && IsPercentText(s[i..r.value])
  {
    if i >= |s| then None
    else
      var j := DigitRunEnd(s, i);
      if j == i || j == |s| then None
      else if s[j] == '%' then
        IntegerPercent(s, i, j);
        Some(j + 1)
      else if s[j] == '.' then
        var k := DigitRunEnd(s, j + 1);
        if j + 1 < k < |s| && s[k] == '%' then
          DecimalPercent(s, i, j, k);
          Some(k + 1)
        else None
      else None
  }

  /** Digits from i to j, then '%': a percentage text. */
  lemma IntegerPercent(s: string, i: nat, j: nat)
    requires i < j < |s| && s[j] == '%'
    requires forall m :: i <= m < j ==> IsDigit(s[m])
    ensures IsPercentText(s[i..j + 1])
  {
    var n := s[i..j + 1][..j - i];
    assert n == s[i..j];
    assert forall m :: 0 <= m < |n| ==> n[m] == s[i + m];
  }

  /** Digits from i to j, '.', digits up to k, then '%': a percentage text. */
  lemma DecimalPercent(s: string, i: nat, j: nat, k: nat)
    requires i < j && j + 1 < k < |s| && s[j] == '.' && s[k] == '%'
    requires forall m :: i <= m < j ==> IsDigit(s[m])
    requires forall m :: j < m < k ==> IsDigit(s[m])
    ensures IsPercentText(s[i..k + 1])
  {
    var n := s[i..k];
    assert n == s[i..k + 1][..k - i];
    assert n[j - i] == '.';
    assert forall m :: 0 <= m < |n| ==> n[m] == s[i + m];
    assert '.' !in n[..j - i];
    IndexOfUnique(n, '.', j - i);
  }

  /** /(\d+(\.\d+)?)%/ matching s[i..e] is what the scan from i finds: the
      digits end at '.' or '%', and the fraction's digits end at '%'. */
  lemma PercentEndAtSpec(s: string, i: nat, e: nat)
    requires i < e <= |s| && IsPercentText(s[i..e])
    ensures PercentEndAt(s, i) == Some(e)
  {
    var t := s[i..e];
    var n := t[..|t| - 1];
    assert n == s[i..e - 1];
    assert s[e - 1] == t[|t| - 1];
    if '.' in n {
      var d := IndexOf(n, '.');
      assert n[..d] == s[i..i + d];
      assert n[d + 1..] == s[i + d + 1..e - 1];
      SliceDigits(s, i, i + d);
      SliceDigits(s, i + d + 1, e - 1);
      assert s[i + d] == n[d];
      DecimalEndAt(s, i, i + d, e);
    } else {
      SliceDigits(s, i, e - 1);
      IntegerEndAt(s, i, e);
    }
  }

  /** Digits from i up to '%' at e - 1: the scan from i ends at e. */
  lemma IntegerEndAt(s: string, i: nat, e: nat)
    requires i < e - 1 && e <= |s| && s[e - 1] == '%'
    requires forall m :: i <= m < e - 1 ==> IsDigit(s[m])
    ensures PercentEndAt(s, i) == Some(e)
  {
    DigitRunEndAt(s, i, e - 1);
  }

  /** Digits from i to j, '.', digits up to '%' at e - 1: the scan from i ends at e. */
  lemma DecimalEndAt(s: string, i: nat, j: nat, e: nat)
    requires i < j && j + 1 < e - 1 && e <= |s| && s[j] == '.' && s[e - 1] == '%'
    requires forall m :: i <= m < j ==> IsDigit(s[m])
    requires forall m :: j + 1 <= m < e - 1 ==> IsDigit(s[m])
    ensures PercentEndAt(s, i) == Some(e)
  {
    DigitRunEndAt(s, i, j);
    DigitRunEndAt(s, j + 1, e - 1);
  }

  /** A match that starts right after a digit also starts at that digit. */
  lemma PercentEndAtBack(s: string, i: nat)
    requires 0 < i <= |s| && IsDigit(s[i - 1]) && PercentEndAt(s, i).Some?
    ensures PercentEndAt(s, i - 1).Some?
  {
    assert DigitRunEnd(s, i - 1) == DigitRunEnd(s, i);
  }

  /** Where the leftmost match of /(\d+(\.\d+)?)%/ starts. */
  function PercentStart(s: string): (r: Option<nat>)
    ensures r.Some? ==> r.value < |s| && PercentEndAt(s, r.value).Some?
    ensures r.Some? ==> forall k :: 0 <= k < r.value ==> PercentEndAt(s, k).None?
    ensures r.None? ==> forall k :: 0 <= k < |s| ==> PercentEndAt(s, k).None?
  {
    var starts := (k: nat) => PercentEndAt(s, k).Some?;
    assert forall k :: starts(k) == PercentEndAt(s, k).Some?;
    FirstAt(0, |s|, starts)
  }

  /** `text.match(/(\d+(\.\d+)?)%/)?.[0]`: the leftmost percentage in the text. */
  function PercentMatch(s: string): (r: Option<string>)
    ensures r.Some? ==> IsPercentText(r.value) && Contains(s, r.value)
    ensures r.None? ==> forall k :: 0 < k < |s| && s[k] == '%' ==> !IsDigit(s[k - 1])
  {
    match PercentStart(s)
    case None =>
      NoPercentEnd(s);
      None
    case Some(i) =>
      var e := PercentEndAt(s, i).value;
      OccursAt(s, i, e);
      Some(s[i..e])
  }

  /** No percentage match anywhere: no digit stands right before a %. */
  lemma NoPercentEnd(s: string)
    requires forall k :: 0 <= k < |s| ==> PercentEndAt(s, k).None?
    ensures forall k :: 0 < k < |s| && s[k] == '%' ==> !IsDigit(s[k - 1])
  {
    forall k | 0 < k < |s| && s[k] == '%' && IsDigit(s[k - 1])
      ensures PercentEndAt(s, k - 1).Some?
    {
      assert DigitRunEnd(s, k - 1) == k;
    }
  }

  /** m is the text /(\d+(\.\d+)?)%/ matches in s when the match starts at i: m
      occurs at i, is a percentage whose number begins a digit run, and no text
      that the expression matches starts before i. */
  predicate IsLeftmostPercent(s: string, i: nat, m: string) {
    && i + |m| <= |s| && s[i..i + |m|] == m && IsPercentText(m)
    && (i == 0 || !IsDigit(s[i - 1]))
    && forall k, e :: 0 <= k < i && k < e <= |s| ==> !IsPercentText(s[k..e])
  }

  /** The percentage found is the leftmost match of the expression, with its whole
      number; none is found only when nothing in the text matches. */
  lemma PercentMatchSpec(s: string)
    ensures PercentMatch(s).Some? ==> exists i :: IsLeftmostPercent(s, i, PercentMatch(s).value)
    ensures PercentMatch(s).None? ==> forall k, e :: 0 <= k < e <= |s| ==> !IsPercentText(s[k..e])
  {
    forall k, e | 0 <= k < e <= |s| && IsPercentText(s[k..e])
      ensures PercentEndAt(s, k).Some?
    {
      PercentEndAtSpec(s, k, e);
    }
    if PercentStart(s).Some? {
      var i := PercentStart(s).value;
      var e := PercentEndAt(s, i).value;
      if 0 < i && IsDigit(s[i - 1]) {
        PercentEndAtBack(s, i);
      }
      assert IsLeftmostPercent(s, i, s[i..e]);
    }
  }

  const WidthProperty: string := "width:"

  /** A match of /width:\s*(\d+(\.\d+)?)%/ spanning s[i..e]: "width:" at i, white
      space up to j, then a percentage from j to e. Its group 1 is s[j..e - 1]. */
  predicate WidthAt(s: string, i: nat, j: nat, e: nat) {
    && i + |WidthProperty| <= j < e <= |s|
    && s[i..i + |WidthProperty|] == WidthProperty
    && (forall k :: i + |WidthProperty| <= k < j ==> IsSpace(s[k]))
    && IsPercentText(s[j..e])
  }

  /** Group 1 of /width:\s*(\d+(\.\d+)?)%/ for a match that starts at i, if one does. */
  function WidthValueAt(s: string, i: nat): (r: Option<string>)
    ensures r.Some? ==> i + |WidthProperty| <= |s| && IsNumber(r.value)
  {
    if i + |WidthProperty| <= |s| && s[i..i + |WidthProperty|] == WidthProperty then
      var j := SkipSpace(s, i + |WidthProperty|);
      match PercentEndAt(s, j)
      case Some(e) =>
        PercentNumber(s, j, e);
        Some(s[j..e - 1])
      case None => None
    else None
  }

  /** A match at i gives its group 1 as the value read at i: \s* can only stop at
      the number's first digit. */
  lemma WidthValueAtSpec(s: string, i: nat, j: nat, e: nat)
    requires WidthAt(s, i, j, e)
    ensures WidthValueAt(s, i) == Some(s[j..e - 1])
  {
    PercentNumber(s, j, e);
    NumberStartsWithDigit(s[j..e - 1]);
    assert s[j] == s[j..e - 1][0];
    SkipSpaceAt(s, i + |WidthProperty|, j);
    PercentEndAtSpec(s, j, e);
    WidthValueAtOf(s, i, e);
  }

  /** "width:" at i and a percentage after the white space that follows it give
      that percentage's number. */
  lemma WidthValueAtOf(s: string, i: nat, e: nat)
    requires i + |WidthProperty| <= |s| && s[i..i + |WidthProperty|] == WidthProperty
    requires PercentEndAt(s, SkipSpace(s, i + |WidthProperty|)) == Some(e)
    ensures WidthValueAt(s, i) == Some(s[SkipSpace(s, i + |WidthProperty|)..e - 1])
  {
  }

  /** The number of a percentage text is the text without its last character. */
  lemma PercentNumber(s: string, j: nat, e: nat)
    requires j < e <= |s| && IsPercentText(s[j..e])
    ensures IsNumber(s[j..e - 1])
  {
    assert s[j..e - 1] == s[j..e][..e - j - 1];
  }

  /** A value read at i comes from a match at i. */
  lemma WidthValueAtFound(s: string, i: nat)
    requires WidthValueAt(s, i).Some?
    ensures PercentEndAt(s, SkipSpace(s, i + |WidthProperty|)).Some?
    ensures WidthAt(s, i, SkipSpace(s, i + |WidthProperty|), PercentEndAt(s, SkipSpace(s, i + |WidthProperty|)).value)
    ensures WidthValueAt(s, i).value == s[SkipSpace(s, i + |WidthProperty|)..PercentEndAt(s, SkipSpace(s, i + |WidthProperty|)).value - 1]
  {
  }

  /** Where the leftmost match of /width:\s*(\d+(\.\d+)?)%/ starts. */
  function WidthStart(s: string): (r: Option<nat>)
    ensures r.Some? ==> r.value < |s| && WidthValueAt(s, r.value).Some?
    ensures r.Some? ==> forall k :: 0 <= k < r.value ==> WidthValueAt(s, k).None?
    ensures r.None? ==> forall k :: 0 <= k < |s| ==> WidthValueAt(s, k).None?
  {
    var starts := (k: nat) => WidthValueAt(s, k).Some?;
    assert forall k :: starts(k) == WidthValueAt(s, k).Some?;
    FirstAt(0, |s|, starts)
  }

  /** `style.match(/width:\s*(\d+(\.\d+)?)%/)?.[1]`: the number of the leftmost
      width declaration given in percent. */
  function WidthMatch(s: string): (r: Option<string>)
    ensures r.Some? ==> IsNumber(r.value)
  {
    match WidthStart(s)
    case None => None
    case Some(i) => WidthValueAt(s, i)
  }

  /** No match of the width expression starts before i. */
  ghost predicate NoWidthBefore(s: string, i: nat) {
    forall k: nat, j: nat, e: nat :: k < i ==> !WidthAt(s, k, j, e)
  }

  /** The width read from a style is group 1 of the leftmost match of the
      expression, so it names the percentage that follows "width:" and any white
      space; a style without a match gives none. A style with a match mentions
      "width". */
  lemma WidthMatchSpec(s: string)
    ensures WidthMatch(s).None? ==> forall i: nat, j: nat, e: nat :: !WidthAt(s, i, j, e)
    ensures WidthMatch(s).Some? ==> exists i: nat, j: nat, e: nat ::
      WidthAt(s, i, j, e) && NoWidthBefore(s, i) && WidthMatch(s).value == s[j..e - 1]
    ensures WidthMatch(s).Some? ==> Contains(s, "width")
  {
    if WidthStart(s).Some? {
      var i := WidthStart(s).value;
      WidthValueAtFound(s, i);
      NoWidthBeforeStart(s, i);
      var j := SkipSpace(s, i + |WidthProperty|);
      var e := PercentEndAt(s, j).value;
      assert WidthAt(s, i, j, e);
      WidthMentioned(s, i);
    } else {
      NoWidthBeforeStart(s, |s|);
    }
  }

  /** No value read before i means no match before i. */
  lemma NoWidthBeforeStart(s: string, i: nat)
    requires i <= |s|
    requires forall k :: 0 <= k < i ==> WidthValueAt(s, k).None?
    ensures NoWidthBefore(s, i)
    ensures i == |s| ==> forall k: nat, j: nat, e: nat :: !WidthAt(s, k, j, e)
  {
    forall k: nat, j: nat, e: nat | WidthAt(s, k, j, e)
      ensures k < |s| && WidthValueAt(s, k).Some?
    {
      WidthValueAtSpec(s, k, j, e);
    }
  }

  /** "width:" at i means the style contains "width". */
  lemma WidthMentioned(s: string, i: nat)
    requires i + |WidthProperty| <= |s| && s[i..i + |WidthProperty|] == WidthProperty
    ensures Contains(s, "width")
  {
    assert StartsWith(s[i..], "width") by {
      assert s[i..][..5] == s[i..i + |WidthProperty|][..5];
    }
    ContainsAt(s, "width");
  }

  /** The whole digit run is taken. */
  lemma CountExample()
    ensures CountMatch("12戦") == Some("12戦")
  {
    var c := "12戦";
    assert IsCountText(c[0..3]);
    CountEndAtSpec(c, 0, 3);
    assert CountStart(c) == Some(0);
    assert c[0..3] == c;
  }

  /** The whole decimal is taken. */
  lemma PercentExample()
    ensures PercentMatch("12.5%") == Some("12.5%")
  {
    var p := "12.5%";
    assert p[0..5] == p;
    assert IsPercentText(p) by {
      assert p[..4] == "12.5";
      IndexOfUnique("12.5", '.', 2);
    }
    PercentEndAtSpec(p, 0, 5);
    assert PercentStart(p) == Some(0);
  }

  /** White space after "width:" is skipped. */
  lemma WidthExample()
    ensures WidthMatch("width: 55%") == Some("55")
  {
    var w := "width: 55%";
    assert w[7..10] == "55%";
    assert w[7..9] == "55";
    assert IsPercentText("55%") by {
      assert "55%"[..2] == "55";
    }
    assert WidthAt(w, 0, 7, 10) by {
      assert w[0..6] == WidthProperty;
    }
    WidthValueAtSpec(w, 0, 7, 10);
    assert WidthStart(w) == Some(0);
  }

  /** A number with % appended is a percentage text. */
  lemma NumberPercent(n: string)
    requires IsNumber(n)
    ensures IsPercentText(n + "%")
  {
    assert (n + "%")[..|n|] == n;
  }

  lemma NumberStartsWithDigit(n: string)
    requires IsNumber(n)
    ensures n != [] && IsDigit(n[0])
  {
    if '.' in n {
      var d := IndexOf(n, '.');
      assert n[..d][0] == n[0];
    }
  }
}
