/** The pure helpers of the tracker page (app/page.tsx): the local image path of a
    character, the integer reading of counts and ratings, when the MR badge is
    shown, and the best-three and worst-three matchups of the detail popup. */
module Page {
  import opened Base
  import opened Strings
  import opened Matchups

  const ImageDir: string := "/characters/"
  const ImageExt: string := ".png"
  /** How many matchups each ranking lists at most. */
  const RankingSize: nat := 3

  // ---------------------------------------------------------------- images

  /** getCharImage: "" for an empty name; otherwise the name with every white-space
      character removed and lower-cased, under /characters/ with a .png suffix. */
  function CharImage(name: string): string {
    if name == "" then "" else ImageDir + AsciiLower(Filter(name, IsNotSpace)) + ImageExt
  }

  /** The image path is empty exactly for the empty name; any other name gives
      /characters/<file>.png whose file part is lower-case, holds no white space,
      and has one character per non-space character of the name. */
  lemma CharImageSpec(name: string)
    ensures CharImage(name) == "" <==> name == ""
    ensures name != "" ==>
      var file := CharImage(name)[|ImageDir|..|CharImage(name)| - |ImageExt|];
      && StartsWith(CharImage(name), ImageDir) && EndsWith(CharImage(name), ImageExt)
      && |file| <= |name|
      && (forall i :: 0 <= i < |file| ==> !IsSpace(file[i]) && !IsAsciiUpper(file[i]))
      && file == AsciiLower(Filter(name, IsNotSpace))
  {
    if name != "" {
      var r := CharImage(name);
      var f := AsciiLower(Filter(name, IsNotSpace));
      assert r[..|ImageDir|] == ImageDir;
      assert r[|r| - |ImageExt|..] == ImageExt;
      assert r[|ImageDir|..|r| - |ImageExt|] == f;
      FileChars(name);
    }
  }

  /** The file part holds no white space and no upper-case letter. */
  lemma FileChars(name: string)
    ensures var f := AsciiLower(Filter(name, IsNotSpace));
      forall i :: 0 <= i < |f| ==> !IsSpace(f[i]) && !IsAsciiUpper(f[i])
  {
    var f := AsciiLower(Filter(name, IsNotSpace));
    forall i | 0 <= i < |f|
      ensures !IsSpace(f[i]) && !IsAsciiUpper(f[i])
    {
      assert IsNotSpace(Filter(name, IsNotSpace)[i]);
    }
  }

  /** A space inside a name does not change its image. */
  lemma CharImageDropsSpace(a: string, b: string)
    requires a + b != ""
    ensures CharImage(a + " " + b) == CharImage(a + b)
  {
    FilterAppend(a + " ", b, IsNotSpace);
    FilterAppend(a, " ", IsNotSpace);
    FilterAppend(a, b, IsNotSpace);
    assert Filter(" ", IsNotSpace) == [] by {
      assert !IsNotSpace(' ');
      assert " "[1..] == [];
    }
    assert Filter(a, IsNotSpace) + [] == Filter(a, IsNotSpace);
  }

  /** A name without white space: "Ryu" has the image /characters/ryu.png. */
  lemma CharImageExample()
    ensures CharImage("") == ""
    ensures CharImage("Ryu") == "/characters/ryu.png"
  {
    FilterKeepsAll("Ryu", IsNotSpace);
    assert AsciiLower("Ryu") == "ryu";
  }

  // ---------------------------------------------------------------- numbers

  /** parseNum: the value of the digits of the text, all other characters dropped;
      0 when there are none (parseInt("") is NaN, and NaN || 0 is 0). */
  function ParseNum(s: string): nat {
    DigitsValue(Filter(s, IsDigit))
  }

  /** A text without digits reads as 0. */
  lemma ParseNumNoDigits(s: string)
    requires forall i :: 0 <= i < |s| ==> !IsDigit(s[i])
    ensures Filter(s, IsDigit) == []
    ensures ParseNum(s) == 0
  {
    var f := Filter(s, IsDigit);
    if f != [] {
      FilterMembership(s, IsDigit, f[0]);
    }
  }

  /** A numeral followed by a unit without digits, such as "5戦", reads as its number. */
  lemma ParseNumShow(n: nat, unit: string)
    requires forall i :: 0 <= i < |unit| ==> !IsDigit(unit[i])
    ensures ParseNum(ShowNat(n) + unit) == n
  {
    FilterAppend(ShowNat(n), unit, IsDigit);
    FilterKeepsAll(ShowNat(n), IsDigit);
    ParseNumNoDigits(unit);
    assert ShowNat(n) + [] == ShowNat(n);
    DigitsValueShowNat(n);
  }

  /** A text reads as a positive number exactly when one of its characters is a
      digit other than '0'. */
  lemma ParseNumPositive(s: string)
    ensures ParseNum(s) > 0 <==> exists i :: 0 <= i < |s| && IsDigit(s[i]) && s[i] != '0'
  {
    var f := Filter(s, IsDigit);
    DigitsValuePositive(f);
    if exists i :: 0 <= i < |f| && f[i] != '0' {
      var i :| 0 <= i < |f| && f[i] != '0';
      FilterMembership(s, IsDigit, f[i]);
      var j :| 0 <= j < |s| && s[j] == f[i];
    }
    if exists i :: 0 <= i < |s| && IsDigit(s[i]) && s[i] != '0' {
      var i :| 0 <= i < |s| && IsDigit(s[i]) && s[i] != '0';
      FilterMembership(s, IsDigit, s[i]);
      var j :| 0 <= j < |f| && f[j] == s[i];
    }
  }

  /** The counts of the matchup rows: "0戦" is no battle, "5戦" five. */
  lemma ParseNumExamples()
    ensures ParseNum("0戦") == 0
    ensures ParseNum("5戦") == 5
    ensures ParseNum("---") == 0
  {
    assert ShowNat(0) == "0";
    assert ShowNat(5) == "5";
    assert "0戦" == ShowNat(0) + "戦";
    assert "5戦" == ShowNat(5) + "戦";
    ParseNumShow(0, "戦");
    ParseNumShow(5, "戦");
    ParseNumNoDigits("---");
  }

  /** The MR badge is shown when the MR is non-empty and reads as a positive number. */
  predicate ShowMrBadge(mr: string) {
    mr != "" && ParseNum(mr) > 0
  }

  /** The badge is shown exactly when the MR holds a digit other than '0': never for
      the "" of a character without MR or the "---" of an unread one. */
  lemma ShowMrBadgeSpec(mr: string)
    ensures ShowMrBadge(mr) <==> exists i :: 0 <= i < |mr| && IsDigit(mr[i]) && mr[i] != '0'
    ensures !ShowMrBadge("") && !ShowMrBadge("---")
  {
    ParseNumPositive(mr);
    ParseNumNoDigits("---");
  }

  // ---------------------------------------------------------------- rankings

  /** The sort key of a matchup: its rate read by rateKey, negated when the order
      is from the highest rate down. */
  function Key(m: MatchupRecord, rateKey: string -> nat, descending: bool): int {
    if descending then -(rateKey(m.rate) as int) else rateKey(m.rate)
  }

  /** The elements in non-decreasing order of key. */
  predicate SortedBy(s: seq<MatchupRecord>, rateKey: string -> nat, descending: bool) {
    forall i, j :: 0 <= i < j < |s| ==> Key(s[i], rateKey, descending) <= Key(s[j], rateKey, descending)
  }

  /** x placed before the first element whose key is at least its own. */
  function Insert(x: MatchupRecord, s: seq<MatchupRecord>, rateKey: string -> nat, descending: bool)
    : (r: seq<MatchupRecord>)
    ensures multiset(r) == multiset(s) + multiset{x}
  {
    if s == [] then [x]
    else if Key(x, rateKey, descending) <= Key(s[0], rateKey, descending) then [x] + s
    else
      assert s == [s[0]] + s[1..];
      [s[0]] + Insert(x, s[1..], rateKey, descending)
  }

  /** A lower bound on the keys of x and of s bounds the keys after the insertion. */
  lemma InsertAbove(x: MatchupRecord, s: seq<MatchupRecord>, rateKey: string -> nat, descending: bool, b: int)
    requires b <= Key(x, rateKey, descending)
    requires forall y :: y in s ==> b <= Key(y, rateKey, descending)
    ensures forall y :: y in Insert(x, s, rateKey, descending) ==> b <= Key(y, rateKey, descending)
  {
    var r := Insert(x, s, rateKey, descending);
    assert forall y :: y in r ==> y in multiset(s) + multiset{x};
  }

  /** A head no greater than any key of a sorted tail gives a sorted sequence. */
  lemma SortedCons(h: MatchupRecord, t: seq<MatchupRecord>, rateKey: string -> nat, descending: bool)
    requires SortedBy(t, rateKey, descending)
    requires forall k :: 0 <= k < |t| ==> Key(h, rateKey, descending) <= Key(t[k], rateKey, descending)
    ensures SortedBy([h] + t, rateKey, descending)
  {
    var r := [h] + t;
    forall i, j | 0 <= i < j < |r|
      ensures Key(r[i], rateKey, descending) <= Key(r[j], rateKey, descending)
    {
      assert r[j] == t[j - 1];
      if i > 0 {
        assert r[i] == t[i - 1];
      }
    }
  }

  /** Inserting into a sorted sequence keeps it sorted. */
  lemma {:induction false} InsertSorted(x: MatchupRecord, s: seq<MatchupRecord>, rateKey: string -> nat, descending: bool)
    requires SortedBy(s, rateKey, descending)
    ensures SortedBy(Insert(x, s, rateKey, descending), rateKey, descending)
  {
    if s == [] {
    } else if Key(x, rateKey, descending) <= Key(s[0], rateKey, descending) {
      SortedCons(x, s, rateKey, descending);
    } else {
      var rest := Insert(x, s[1..], rateKey, descending);
      InsertSorted(x, s[1..], rateKey, descending);
      assert forall y :: y in s[1..] ==> Key(s[0], rateKey, descending) <= Key(y, rateKey, descending);
      InsertAbove(x, s[1..], rateKey, descending, Key(s[0], rateKey, descending));
      SortedCons(s[0], rest, rateKey, descending);
    }
  }

  /** Array.prototype.sort with a comparator that orders by rate: a stable sort,
      each element inserted ahead of the later elements with an equal key. */
  function SortBy(s: seq<MatchupRecord>, rateKey: string -> nat, descending: bool): (r: seq<MatchupRecord>)
    ensures multiset(r) == multiset(s)
    ensures SortedBy(r, rateKey, descending)
  {
    if s == [] then []
    else
      assert s == [s[0]] + s[1..];
      InsertSorted(s[0], SortBy(s[1..], rateKey, descending), rateKey, descending);
      Insert(s[0], SortBy(s[1..], rateKey, descending), rateKey, descending)
  }

  /** A matchup that has been played: its count reads as a positive number. */
  predicate IsPlayed(m: MatchupRecord) {
    ParseNum(m.count) > 0
  }

  datatype Rankings = Rankings(best: seq<MatchupRecord>, worst: seq<MatchupRecord>)

  /** getRankings, with parseRate given as the rate key: the played matchups,
      sorted by rate downwards for best and upwards for worst, three of each. */
  function GetRankings(matchups: seq<MatchupRecord>, rateKey: string -> nat): Rankings {
    var played := Filter(matchups, IsPlayed);
    if |played| == 0 then Rankings([], [])
    else
      var sortedDesc := SortBy(played, rateKey, true);
      var sortedAsc := SortBy(played, rateKey, false);
      Rankings(sortedDesc[..Min(RankingSize, |played|)], sortedAsc[..Min(RankingSize, |played|)])
  }

  /** The first n elements of a sorted sequence are a sub-multiset whose keys are
      no greater than those of the rest. */
  lemma TopOfSorted(s: seq<MatchupRecord>, rateKey: string -> nat, descending: bool, n: nat)
    requires SortedBy(s, rateKey, descending) && n <= |s|
    ensures multiset(s[..n]) <= multiset(s)
    ensures forall m, b :: m in multiset(s) - multiset(s[..n]) && b in s[..n] ==>
      Key(b, rateKey, descending) <= Key(m, rateKey, descending)
  {
    assert s == s[..n] + s[n..];
    assert multiset(s) == multiset(s[..n]) + multiset(s[n..]);
    forall m, b | m in multiset(s) - multiset(s[..n]) && b in s[..n]
      ensures Key(b, rateKey, descending) <= Key(m, rateKey, descending)
    {
      assert m in multiset(s[n..]);
      var j :| n <= j < |s| && s[j] == m;
      var i :| 0 <= i < n && s[i] == b;
    }
  }

  /** Both rankings list min(3, number played) matchups, all of them played ones
      taken from the input. */
  lemma GetRankingsMembers(matchups: seq<MatchupRecord>, rateKey: string -> nat)
    ensures var r, played := GetRankings(matchups, rateKey), Filter(matchups, IsPlayed);
      && |r.best| == Min(RankingSize, |played|) && |r.worst| == Min(RankingSize, |played|)
      && multiset(r.best) <= multiset(played) && multiset(r.worst) <= multiset(played)
      && (forall m :: m in r.best || m in r.worst ==> m in matchups && IsPlayed(m))
  {
    var r := GetRankings(matchups, rateKey);
    var played := Filter(matchups, IsPlayed);
    if |played| > 0 {
      var n := Min(RankingSize, |played|);
      TopOfSorted(SortBy(played, rateKey, true), rateKey, true, n);
      TopOfSorted(SortBy(played, rateKey, false), rateKey, false, n);
      forall m | m in r.best || m in r.worst
        ensures m in matchups && IsPlayed(m)
      {
        assert m in multiset(r.best) || m in multiset(r.worst);
        assert m in multiset(played);
        FilterMembership(matchups, IsPlayed, m);
      }
    }
  }

  /** The first n elements of a sequence sorted by rate, upwards or downwards, are
      in that order, and none of the other elements comes before any of them in it. */
  lemma RankedPrefix(s: seq<MatchupRecord>, rateKey: string -> nat, descending: bool, n: nat)
    requires SortedBy(s, rateKey, descending) && n <= |s|
    ensures descending ==>
      && (forall i, j :: 0 <= i < j < |s[..n]| ==> rateKey(s[..n][i].rate) >= rateKey(s[..n][j].rate))
      && (forall m, b :: m in multiset(s) - multiset(s[..n]) && b in s[..n] ==> rateKey(b.rate) >= rateKey(m.rate))
    ensures !descending ==>
      && (forall i, j :: 0 <= i < j < |s[..n]| ==> rateKey(s[..n][i].rate) <= rateKey(s[..n][j].rate))
      && (forall m, b :: m in multiset(s) - multiset(s[..n]) && b in s[..n] ==> rateKey(b.rate) <= rateKey(m.rate))
  {
    TopOfSorted(s, rateKey, descending, n);
    assert forall i :: 0 <= i < n ==> s[..n][i] == s[i];
  }

  /** best runs from the highest rate down and worst from the lowest up; no played
      matchup left out of best has a higher rate than one in it, and none left out
      of worst a lower one. */
  lemma GetRankingsOrder(matchups: seq<MatchupRecord>, rateKey: string -> nat)
    ensures var r, played := GetRankings(matchups, rateKey), Filter(matchups, IsPlayed);
      && (forall i, j :: 0 <= i < j < |r.best| ==> rateKey(r.best[i].rate) >= rateKey(r.best[j].rate))
      && (forall i, j :: 0 <= i < j < |r.worst| ==> rateKey(r.worst[i].rate) <= rateKey(r.worst[j].rate))
      && (forall m, b :: m in multiset(played) - multiset(r.best) && b in r.best ==>
            rateKey(b.rate) >= rateKey(m.rate))
      && (forall m, w :: m in multiset(played) - multiset(r.worst) && w in r.worst ==>
            rateKey(w.rate) <= rateKey(m.rate))
  {
    BestOrder(matchups, rateKey);
    WorstOrder(matchups, rateKey);
  }

  /** The best half of GetRankingsOrder. */
  lemma BestOrder(matchups: seq<MatchupRecord>, rateKey: string -> nat)
    ensures var r, played := GetRankings(matchups, rateKey), Filter(matchups, IsPlayed);
      && (forall i, j :: 0 <= i < j < |r.best| ==> rateKey(r.best[i].rate) >= rateKey(r.best[j].rate))
      && (forall m, b :: m in multiset(played) - multiset(r.best) && b in r.best ==>
            rateKey(b.rate) >= rateKey(m.rate))
  {
    var played := Filter(matchups, IsPlayed);
    if |played| > 0 {
      var desc := SortBy(played, rateKey, true);
      RankedPrefix(desc, rateKey, true, Min(RankingSize, |played|));
    }
  }

  /** The worst half of GetRankingsOrder. */
  lemma WorstOrder(matchups: seq<MatchupRecord>, rateKey: string -> nat)
    ensures var r, played := GetRankings(matchups, rateKey), Filter(matchups, IsPlayed);
      && (forall i, j :: 0 <= i < j < |r.worst| ==> rateKey(r.worst[i].rate) <= rateKey(r.worst[j].rate))
      && (forall m, w :: m in multiset(played) - multiset(r.worst) && w in r.worst ==>
            rateKey(w.rate) <= rateKey(m.rate))
  {
    var played := Filter(matchups, IsPlayed);
    if |played| > 0 {
      var asc := SortBy(played, rateKey, false);
      RankedPrefix(asc, rateKey, false, Min(RankingSize, |played|));
    }
  }

  /** Without a played matchup both rankings are empty. */
  lemma NothingPlayed(matchups: seq<MatchupRecord>, rateKey: string -> nat)
    requires forall i :: 0 <= i < |matchups| ==> !IsPlayed(matchups[i])
    ensures GetRankings(matchups, rateKey) == Rankings([], [])
  {
    var played := Filter(matchups, IsPlayed);
    if played != [] {
      FilterMembership(matchups, IsPlayed, played[0]);
    }
  }

  /** Two played matchups b and c, b with the higher rate, and one unplayed a:
      best is [b, c] and worst is [c, b], a in neither. */
  lemma GetRankingsOfThree(a: MatchupRecord, b: MatchupRecord, c: MatchupRecord, rateKey: string -> nat)
    requires !IsPlayed(a) && IsPlayed(b) && IsPlayed(c)
    requires rateKey(b.rate) > rateKey(c.rate)
    ensures GetRankings([a, b, c], rateKey) == Rankings([b, c], [c, b])
  {
    PlayedOfThree(a, b, c);
    RankTwo(b, c, rateKey);
  }

  /** Sorting b and c, b with the higher rate, and keeping up to three of each order. */
  lemma RankTwo(b: MatchupRecord, c: MatchupRecord, rateKey: string -> nat)
    requires rateKey(b.rate) > rateKey(c.rate)
    ensures SortBy([b, c], rateKey, true)[..Min(RankingSize, 2)] == [b, c]
    ensures SortBy([b, c], rateKey, false)[..Min(RankingSize, 2)] == [c, b]
  {
    assert Min(RankingSize, 2) == 2;
    SortTwo(b, c, rateKey, true);
    SortTwo(b, c, rateKey, false);
    KeepTwo(SortBy([b, c], rateKey, true));
    KeepTwo(SortBy([b, c], rateKey, false));
  }

  lemma KeepTwo(s: seq<MatchupRecord>)
    requires |s| == 2
    ensures s[..2] == s
  {
  }

  /** Filtering keeps the played b and c and drops a. */
  lemma PlayedOfThree(a: MatchupRecord, b: MatchupRecord, c: MatchupRecord)
    requires !IsPlayed(a) && IsPlayed(b) && IsPlayed(c)
    ensures Filter([a, b, c], IsPlayed) == [b, c]
  {
    assert Filter([c], IsPlayed) == [c] by {
      assert [c][1..] == [];
    }
    assert Filter([b, c], IsPlayed) == [b, c] by {
      assert [b, c][1..] == [c];
    }
    assert [a, b, c][1..] == [b, c];
  }

  /** Sorting two elements keeps them in place unless the second has the smaller key. */
  lemma SortTwo(x: MatchupRecord, y: MatchupRecord, rateKey: string -> nat, descending: bool)
    ensures SortBy([x, y], rateKey, descending)
         == if Key(x, rateKey, descending) <= Key(y, rateKey, descending) then [x, y] else [y, x]
  {
    assert [x, y][1..] == [y];
    assert SortBy([y], rateKey, descending) == [y] by {
      assert [y][1..] == [];
    }
    assert [y][1..] == [];
  }

  /** Example, with ParseNum as the rate key: A (0戦, 10%) is left out; B (5戦,
      80%) and C (3戦, 20%) give best [B, C] and worst [C, B]. */
  lemma GetRankingsExample()
    ensures var a, b, c := MatchupRecord("A", "0戦", "10%", ""),
                           MatchupRecord("B", "5戦", "80%", ""),
                           MatchupRecord("C", "3戦", "20%", "");
      GetRankings([a, b, c], ParseNum) == Rankings([b, c], [c, b])
  {
    ParseNumExamples();
    assert ParseNum("3戦") == 3 by {
      assert "3戦" == ShowNat(3) + "戦";
      ParseNumShow(3, "戦");
    }
    assert ParseNum("80%") == 80 by {
      assert "80%" == ShowNat(80) + "%";
      ParseNumShow(80, "%");
    }
    assert ParseNum("20%") == 20 by {
      assert "20%" == ShowNat(20) + "%";
      ParseNumShow(20, "%");
    }
    var a, b, c := MatchupRecord("A", "0戦", "10%", ""),
                   MatchupRecord("B", "5戦", "80%", ""),
                   MatchupRecord("C", "3戦", "20%", "");
    assert !IsPlayed(a) && IsPlayed(b) && IsPlayed(c);
    GetRankingsOfThree(a, b, c, ParseNum);
  }
}
