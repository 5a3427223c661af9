/** Shared vocabulary: optional values, handler responses, first-match search
    (Array.prototype.find), filtering, and the filter-map that every list
    extractor performs with its forEach-and-push loop. */
module Base {

  datatype Option<T> = None | Some(value: T)

  /** What a route handler answers: a JSON body, or an error body with its HTTP status. */
  datatype Response<T> = Ok(body: T) | Error(status: nat, message: string)

  /** A query parameter or environment variable that JavaScript treats as truthy:
      present and not the empty string. */
  predicate Given(v: Option<string>) {
    v.Some? && v.value != ""
  }

  /** Index of the first element of s satisfying p, as Array.prototype.find scans. */
  function Find<T>(s: seq<T>, p: T -> bool): (r: Option<nat>)
    ensures r.Some? ==> r.value < |s| && p(s[r.value])
    ensures r.Some? ==> forall j :: 0 <= j < r.value ==> !p(s[j])
    ensures r.None? ==> forall j :: 0 <= j < |s| ==> !p(s[j])
  {
    if s == [] then None
    else if p(s[0]) then Some(0)
    else match Find(s[1..], p)
      case None => None
      case Some(i) => Some(i + 1)
  }

  /** First position k in [lo, hi) with p(k): the leftmost-start rule of a regular
      expression search, given p as "a match starts at k". */
  function FirstAt(lo: nat, hi: nat, p: nat -> bool): (r: Option<nat>)
    decreases hi - lo
    ensures r.Some? ==> lo <= r.value < hi && p(r.value)
    ensures r.Some? ==> forall k :: lo <= k < r.value ==> !p(k)
    ensures r.None? ==> forall k :: lo <= k < hi ==> !p(k)
  {
    if hi <= lo then None
    else if p(lo) then Some(lo)
    else FirstAt(lo + 1, hi, p)
  }

  /** The elements of s that satisfy p, in order (String.prototype.replace with a
      negated character class, Array.prototype.filter). */
  function Filter<T>(s: seq<T>, p: T -> bool): (r: seq<T>)
    ensures |r| <= |s|
    ensures forall i :: 0 <= i < |r| ==> p(r[i])
  {
    if s == [] then [] else (if p(s[0]) then [s[0]] else []) + Filter(s[1..], p)
  }

  lemma {:induction false} FilterMembership<T>(s: seq<T>, p: T -> bool, x: T)
    ensures x in Filter(s, p) <==> x in s && p(x)
  {
    if s != [] {
      FilterMembership(s[1..], p, x);
      assert s == [s[0]] + s[1..];
    }
  }

  lemma {:induction false} FilterAppend<T>(a: seq<T>, b: seq<T>, p: T -> bool)
    ensures Filter(a + b, p) == Filter(a, p) + Filter(b, p)
  {
    if a == [] {
      assert a + b == b;
    } else {
      assert (a + b)[1..] == a[1..] + b;
      FilterAppend(a[1..], b, p);
    }
  }

  lemma {:induction false} FilterKeepsAll<T>(s: seq<T>, p: T -> bool)
    requires forall i :: 0 <= i < |s| ==> p(s[i])
    ensures Filter(s, p) == s
  {
    if s != [] {
      FilterKeepsAll(s[1..], p);
    }
  }

  /** The rows that a forEach loop pushes: f(item) is the row an item yields, if any.
      Defined on the last item so that it follows the loop one step at a time. */
  function Collect<A, B>(s: seq<A>, f: A -> Option<B>): (r: seq<B>)
    ensures |r| <= |s|
  {
    if s == [] then []
    else Collect(s[..|s| - 1], f) + (match f(s[|s| - 1]) case Some(b) => [b] case None => [])
  }

  /** Collecting a prefix of the items gives a prefix of the rows. */
  lemma {:induction false} CollectPrefix<A, B>(s: seq<A>, f: A -> Option<B>, i: nat)
    requires i <= |s|
    ensures Collect(s[..i], f) <= Collect(s, f)
    decreases |s| - i
  {
    if i < |s| {
      assert s[..|s|][..|s| - 1] == s[..|s| - 1];
      var t := s[..|s| - 1];
      assert t[..i] == s[..i];
      CollectPrefix(t, f, i);
      assert s[..|s|] == s;
    } else {
      assert s[..i] == s;
    }
  }

  /** An item that yields a row yields exactly one, at the position given by the
      number of rows its predecessors yielded: one row per kept item, in order. */
  lemma CollectAt<A, B>(s: seq<A>, f: A -> Option<B>, i: nat)
    requires i < |s| && f(s[i]).Some?
    ensures |Collect(s[..i], f)| < |Collect(s, f)|
    ensures Collect(s, f)[|Collect(s[..i], f)|] == f(s[i]).value
  {
    var t := s[..i + 1];
    assert t[..|t| - 1] == s[..i];
    assert Collect(t, f) == Collect(s[..i], f) + [f(s[i]).value];
    CollectPrefix(s, f, i + 1);
  }

  /** An item that yields a row appends it to the rows of the items before it. */
  lemma CollectKeeps<A, B>(s: seq<A>, f: A -> Option<B>, i: nat)
    requires i < |s| && f(s[i]).Some?
    ensures Collect(s[..i + 1], f) == Collect(s[..i], f) + [f(s[i]).value]
  {
    var t := s[..i + 1];
    assert t[..|t| - 1] == s[..i];
  }

  /** An item that yields no row adds nothing to the output. */
  lemma CollectSkips<A, B>(s: seq<A>, f: A -> Option<B>, i: nat)
    requires i < |s| && f(s[i]).None?
    ensures Collect(s[..i + 1], f) == Collect(s[..i], f)
  {
    var t := s[..i + 1];
    assert t[..|t| - 1] == s[..i];
  }

  /** Every row comes from some item. */
  lemma {:induction false} CollectFrom<A, B>(s: seq<A>, f: A -> Option<B>, k: nat)
    requires k < |Collect(s, f)|
    ensures exists i :: 0 <= i < |s| && f(s[i]) == Some(Collect(s, f)[k])
  {
    var t := s[..|s| - 1];
    if k < |Collect(t, f)| {
      CollectFrom(t, f, k);
      var i :| 0 <= i < |t| && f(t[i]) == Some(Collect(t, f)[k]);
      assert t[i] == s[i];
    } else {
      assert f(s[|s| - 1]) == Some(Collect(s, f)[k]);
    }
  }

  function Min(a: int, b: int): int {
    if a <= b then a else b
  }
}
