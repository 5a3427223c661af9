/** The player search route (app/api/search-id/route.ts): type the name into the
    fighters page's search box, submit, and answer the user code of the first
    link on the result page that points at a profile. Browser I/O is replaced by
    the DOM snapshot each step reads. */
module SearchId {
  import opened Base
  import opened Strings
  import opened Dom
  import opened Cookies

  const ProfilePath: string := "/profile/"
  const MissingName: string := "名前がありません"
  const NoCookieConfig: string := "Cookie設定なし"
  const NoSearchBox: string := "検索ボックスが見つかりませんでした"
  const NoPlayer: string := "プレイヤーが見つかりませんでした"

  /** The selector `input[type="text"]`: an HTML document compares the value of
      an input's type attribute without regard to ASCII case. */
  predicate IsTextInput(e: Element) {
    e.tag == "input" && GetAttribute(e, "type").Some? && AsciiLower(GetAttribute(e, "type").value) == "text"
  }

  /** A placeholder that looks like a player search: it mentions "ID", "Fighter"
      or 検索. */
  predicate IsSearchPlaceholder(p: string) {
    Contains(p, "ID") || Contains(p, "Fighter") || Contains(p, "検索")
  }

  /** The box the name is typed into: the first text input whose placeholder
      (empty when absent) looks like a search. */
  function FindSearchInput(elems: seq<Element>): (r: Option<nat>)
    ensures r.Some? ==>
      && r.value < |elems| && IsTextInput(elems[r.value])
      && IsSearchPlaceholder(AttributeOrEmpty(elems[r.value], "placeholder"))
    ensures r.None? ==> forall i :: 0 <= i < |elems| && IsTextInput(elems[i]) ==>
      !IsSearchPlaceholder(AttributeOrEmpty(elems[i], "placeholder"))
  {
    Find(elems, (e: Element) => IsTextInput(e) && IsSearchPlaceholder(AttributeOrEmpty(e, "placeholder")))
  }

  /** Where the run of digits that ends the string begins. */
  function DigitSuffixStart(s: string): (n: nat)
    ensures n <= |s|
    ensures forall k :: n <= k < |s| ==> IsDigit(s[k])
    ensures n == 0 || !IsDigit(s[n - 1])
  {
    if s != [] && IsDigit(s[|s| - 1]) then DigitSuffixStart(s[..|s| - 1]) else |s|
  }

  /** `href.match(/\/profile\/(\d+)$/)?.[1]`: the digits that end the link, when
      there are some and "/profile/" comes right before them. Since "/profile/"
      ends in a non-digit, \d+ can only be the whole run of final digits. */
  function ProfileCode(href: string): Option<string> {
    var n := DigitSuffixStart(href);
    if n < |href| && EndsWith(href[..n], ProfilePath) then Some(href[n..]) else None
  }

  /** The regular expression matches with "/profile/" starting at p: the link
      ends with "/profile/" followed by one or more digits from p on. */
  predicate ProfileAt(href: string, p: nat) {
    p + |ProfilePath| < |href|
    && href[p..p + |ProfilePath|] == ProfilePath
    && AllDigits(href[p + |ProfilePath|..])
  }

  /** The code is found exactly when the expression matches somewhere, and then it
      is the digits after that match's "/profile/"; the code is a non-empty run of
      digits and the link ends with "/profile/" and the code. */
  lemma ProfileCodeSpec(href: string)
    ensures ProfileCode(href).Some? <==> exists p: nat :: ProfileAt(href, p)
    ensures forall p: nat :: ProfileAt(href, p) ==> ProfileCode(href) == Some(href[p + |ProfilePath|..])
    ensures ProfileCode(href).Some? ==> var code := ProfileCode(href).value;
      && code != [] && AllDigits(code) && EndsWith(href, ProfilePath + code)
  {
    forall p: nat | ProfileAt(href, p)
      ensures ProfileCode(href) == Some(href[p + |ProfilePath|..])
    {
      ProfileAtCode(href, p);
    }
    if ProfileCode(href).Some? {
      CodeProfileAt(href);
    }
  }

  /** A match of the expression at p gives the digits after it as the code. */
  lemma ProfileAtCode(href: string, p: nat)
    requires ProfileAt(href, p)
    ensures ProfileCode(href) == Some(href[p + |ProfilePath|..])
  {
    var n := DigitSuffixStart(href);
    var m := |ProfilePath|;
    assert href[p + m - 1] == href[p..p + m][m - 1];
    assert forall k :: p + m <= k < |href| ==> href[k] == href[p + m..][k - (p + m)];
    assert n == p + m;
    assert href[..n][n - m..] == href[p..p + m];
  }

  /** A code comes from a match right before the final digits, and the link ends
      with "/profile/" and the code. */
  lemma CodeProfileAt(href: string)
    requires ProfileCode(href).Some?
    ensures ProfileAt(href, DigitSuffixStart(href) - |ProfilePath|)
    ensures var code := ProfileCode(href).value;
      && code != [] && AllDigits(code) && EndsWith(href, ProfilePath + code)
  {
    var n := DigitSuffixStart(href);
    var m := |ProfilePath|;
    var p := n - m;
    assert href[p..p + m] == href[..n][n - m..];
    var code := href[n..];
    assert href[|href| - |ProfilePath + code|..] == href[p..p + m] + code;
  }

  /** A link of the site's profile shape gives its code; a link that goes on after the
      digits, or has no digits, gives none. */
  lemma ProfileCodeExamples()
    ensures ProfileCode("/6/buckler/ja-jp/profile/1234567890") == Some("1234567890")
    ensures ProfileCode("/6/buckler/ja-jp/profile/1234567890/play") == None
    ensures ProfileCode("/6/buckler/ja-jp/profile/") == None
  {
    var a := "/6/buckler/ja-jp/profile/1234567890";
    assert ProfileAt(a, 16) by {
      assert a[16..25] == ProfilePath;
      assert a[25..] == "1234567890";
    }
    ProfileCodeSpec(a);
    var b := "/6/buckler/ja-jp/profile/1234567890/play";
    assert DigitSuffixStart(b) == |b|;
    var c := "/6/buckler/ja-jp/profile/";
    assert DigitSuffixStart(c) == |c|;
  }

  /** A link element whose href (empty when absent) holds a profile code. */
  predicate IsProfileLink(e: Element) {
    e.tag == "a" && ProfileCode(AttributeOrEmpty(e, "href")).Some?
  }

  /** The code of the first profile link on the result page, if any. */
  function FirstProfileCode(elems: seq<Element>): (r: Option<string>)
    ensures r.Some? <==> exists i :: 0 <= i < |elems| && IsProfileLink(elems[i])
    ensures r.Some? ==> exists i ::
      && 0 <= i < |elems| && IsProfileLink(elems[i])
      && (forall j :: 0 <= j < i ==> !IsProfileLink(elems[j]))
      && r == ProfileCode(AttributeOrEmpty(elems[i], "href"))
  {
    match Find(elems, IsProfileLink)
    case None => None
    case Some(i) => ProfileCode(AttributeOrEmpty(elems[i], "href"))
  }

  /** A user code found on the result page is a non-empty run of digits. */
  lemma FirstProfileCodeDigits(elems: seq<Element>)
    ensures FirstProfileCode(elems).Some? ==>
      FirstProfileCode(elems).value != [] && AllDigits(FirstProfileCode(elems).value)
  {
    if FirstProfileCode(elems).Some? {
      var i :| 0 <= i < |elems| && IsProfileLink(elems[i])
        && FirstProfileCode(elems) == ProfileCode(AttributeOrEmpty(elems[i], "href"));
      ProfileCodeSpec(AttributeOrEmpty(elems[i], "href"));
    }
  }

  /** What the page reads at each step of the route. */
  datatype SearchPages = SearchPages(
    fighters: seq<Element>,  // the fighters page once loaded
    results: seq<Element>)   // the page after Enter and the result delay

  /** GET /api/search-id: 400 without a name, 500 without the cookie setting, 404
      when no search box is found; otherwise the code of the first profile link of
      the result page, or 404 when there is none. */
  method SearchUserCode(name: Option<string>, cookieEnv: Option<string>, pages: SearchPages)
    returns (resp: Response<string>)
    ensures !Given(name) ==> resp == Error(400, MissingName)
    ensures Given(name) && CookieJar(cookieEnv).None? ==> resp == Error(500, NoCookieConfig)
    ensures Given(name) && CookieJar(cookieEnv).Some? && FindSearchInput(pages.fighters).None? ==>
      resp == Error(404, NoSearchBox)
    ensures Given(name) && CookieJar(cookieEnv).Some? && FindSearchInput(pages.fighters).Some? ==>
      && (FirstProfileCode(pages.results).Some? ==> resp == Ok(FirstProfileCode(pages.results).value))
      && (FirstProfileCode(pages.results).None? ==> resp == Error(404, NoPlayer))
    ensures resp.Ok? ==> resp.body != [] && AllDigits(resp.body)
  {
    if !Given(name) {
      return Error(400, MissingName);
    }
    var cookies := CookieJar(cookieEnv);
    if cookies.None? {
      return Error(500, NoCookieConfig);
    }
    var inputResult := FindSearchInput(pages.fighters).Some?;
    if !inputResult {
      return Error(404, NoSearchBox);
    }
    var userCode := FirstProfileCode(pages.results);
    if userCode.Some? {
      FirstProfileCodeDigits(pages.results);
      resp := Ok(userCode.value);
    } else {
      resp := Error(404, NoPlayer);
    }
  }
}
