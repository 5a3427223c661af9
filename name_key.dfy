/** The name key used to pick a character in the selection modal: only the latin
    letters and digits of a text, upper-cased, and the rule by which an on-screen
    key matches the key of the requested name. */
module NameKey {
  import opened Base
  import opened Strings

  predicate IsAsciiAlnum(c: char) {
    IsAsciiUpper(c) || IsAsciiLower(c) || IsDigit(c)
  }

  /** The characters a key is made of: A-Z and 0-9. */
  predicate IsKeyChar(c: char) {
    IsAsciiUpper(c) || IsDigit(c)
  }

  /** `str.replace(/[^a-zA-Z0-9]/g, '').toUpperCase()`. Once the other characters are
      gone, toUpperCase only meets ASCII letters, so ASCII upper-casing is exact here. */
  function Normalize(s: string): string {
    AsciiUpper(Filter(s, IsAsciiAlnum))
  }

  /** A key holds only A-Z and 0-9, and is no longer than the text it came from. */
  lemma NormalizeChars(s: string)
    ensures |Normalize(s)| <= |s|
    ensures forall i :: 0 <= i < |Normalize(s)| ==> IsKeyChar(Normalize(s)[i])
  {
    var f := Filter(s, IsAsciiAlnum);
    forall i | 0 <= i < |f|
      ensures IsKeyChar(UpperChar(f[i]))
    {
      assert IsAsciiAlnum(f[i]);
    }
  }

  /** A string made of key characters is its own key. */
  lemma NormalizeKey(k: string)
    requires forall i :: 0 <= i < |k| ==> IsKeyChar(k[i])
    ensures Normalize(k) == k
  {
    FilterKeepsAll(k, IsAsciiAlnum);
    assert Filter(k, IsAsciiAlnum) == k;
    assert forall i :: 0 <= i < |k| ==> UpperChar(k[i]) == k[i];
  }

  /** Normalizing a key again changes nothing. */
  lemma NormalizeIdempotent(s: string)
    ensures Normalize(Normalize(s)) == Normalize(s)
  {
    NormalizeChars(s);
    NormalizeKey(Normalize(s));
  }

  /** The examples given in the source: "J.P." has key "JP", "Luke" has key "LUKE". */
  lemma NormalizeExamples()
    ensures Normalize("J.P.") == "JP"
    ensures Normalize("Luke") == "LUKE"
  {
    DotsDropped();
    assert Filter("Luke", IsAsciiAlnum) == "Luke" by {
      FilterKeepsAll("Luke", IsAsciiAlnum);
    }
  }

  lemma DotsDropped()
    ensures Filter("J.P.", IsAsciiAlnum) == "JP"
  {
    assert Filter(".", IsAsciiAlnum) == [];
    assert Filter("P.", IsAsciiAlnum) == "P";
    assert Filter(".P.", IsAsciiAlnum) == "P";
  }

  /** The match predicate of the character modal, on keys: a target key of at most
      two characters must be equal to the candidate (so "ED" does not match
      "RANKED"); a longer one must occur in the candidate, and the candidate may be
      at most nine characters longer. */
  predicate KeyMatches(candidate: string, target: string) {
    if |target| <= 2 then candidate == target
    else Contains(candidate, target) && |candidate| < |target| + 10
  }

  /** Whatever the length of the target, a match contains the target and exceeds
      it by fewer than ten characters. */
  lemma KeyMatchesBounds(candidate: string, target: string)
    requires KeyMatches(candidate, target)
    ensures Contains(candidate, target)
    ensures |target| <= |candidate| < |target| + 10
  {
    if |target| <= 2 {
      assert StartsWith(candidate, target);
    } else {
      ContainsLength(candidate, target);
    }
  }

  /** Short keys match on equality and nothing else. */
  lemma ShortKeyExact(candidate: string, target: string)
    requires |target| <= 2
    ensures KeyMatches(candidate, target) <==> candidate == target
  {
  }

  /** Every key matches itself. */
  lemma KeyMatchesSelf(key: string)
    ensures KeyMatches(key, key)
  {
    assert StartsWith(key, key);
  }

  /** A candidate ten or more characters longer than the target never matches. */
  lemma LongCandidateRejected(candidate: string, target: string)
    requires |candidate| >= |target| + 10
    ensures !KeyMatches(candidate, target)
  {
  }

  /** Examples: "JAJP" does not match "JP"; "GOUKICLASSIC" matches "GOUKI"
      (seven characters more). */
  lemma KeyMatchesExamples()
    ensures !KeyMatches("JAJP", "JP")
    ensures KeyMatches("JP", "JP")
    ensures KeyMatches("GOUKICLASSIC", "GOUKI")
  {
    assert StartsWith("GOUKICLASSIC", "GOUKI");
  }
}
