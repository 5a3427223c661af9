/** The stats route (app/api/stats/route.ts): read the win rate per character from
    the play page, switch to the league-point tab and read the LP per character,
    switch to the master-rate tab and, when that tab was found, read the MR per
    character; then join the three lists on the character name, ignoring case.
    Browser I/O is replaced by the DOM snapshot each step reads. */
module Stats {
  import opened Base
  import opened Strings
  import opened Dom
  import opened Cookies

  const WinContainerToken: string := "winning_rate"
  const WinNameToken: string := "winning_rate_name"
  const WinRateToken: string := "winning_rate_rate"
  const LpContainerToken: string := "league_point"
  const LpNameToken: string := "league_point_name"
  const LpValueToken: string := "league_point_lp"
  const MrContainerToken: string := "master_rate"
  const MrValueToken: string := "league_point_mr"
  const LpTabLabel: string := "キャラクター別リーグポイント"
  const MrTabLabel: string := "キャラクター別マスターレート"
  const NoWinRate: string := "-"
  const NoLpRead: string := "0"
  const NoMrRead: string := "---"
  const NoLpMatch: string := "---"
  const NoMrMatch: string := ""
  const MissingUserCode: string := "ユーザーコードがありません"
  const NoCookieConfig: string := "Cookie設定なし"
  /** A tab candidate's trimmed text must be shorter than this, in UTF-16 units. */
  const TabTextLimit: nat := 50
  /** The tags of clickTab's querySelectorAll. */
  const ClickTabTags: set<string> := {"li", "div", "span", "a", "p"}

  datatype WinRateRecord = WinRateRecord(name: string, rate: string, icon: string)
  datatype LpRecord = LpRecord(name: string, lp: string, icon: string)
  datatype MrRecord = MrRecord(name: string, mr: string)

  /** One character of the response. */
  datatype CharData = CharData(name: string, lp: string, mr: string, winRate: string, icon: string)

  /** `a || b` on strings: the empty string is falsy. */
  function OrElse(a: string, b: string): (r: string)
    ensures a != "" ==> r == a
    ensures a == "" ==> r == b
  {
    if a != "" then a else b
  }

  /** `li.querySelector('[class*="token"]')?.textContent?.trim()`. */
  function TrimmedText(li: ListItem, token: string): Option<string> {
    match QueryClass(li.descendants, token)
    case None => None
    case Some(e) => Some(Trim(e.text))
  }

  /** The trimmed text, or the fallback when the element is missing or its trimmed
      text is empty. */
  function TextOr(li: ListItem, token: string, fallback: string): string {
    match TrimmedText(li, token)
    case None => fallback
    case Some(t) => OrElse(t, fallback)
  }

  /** The icon of an item: from its first `img`. */
  function ItemIcon(li: ListItem): string {
    IconUrl(QueryTag(li.descendants, "img"))
  }

  // ---------------------------------------------------------------- win rates

  /** The win-rate row of an item: only when its name element has non-empty
      trimmed text; the rate defaults to "-". */
  function WinRateRow(li: ListItem): Option<WinRateRecord> {
    match TrimmedText(li, WinNameToken)
    case None => None
    case Some(name) =>
      if name == "" then None
      else Some(WinRateRecord(name, TextOr(li, WinRateToken, NoWinRate), ItemIcon(li)))
  }

  /** The win-rate rows of the play page: none without the container. */
  function WinRateRows(view: View): seq<WinRateRecord> {
    match QueryArticle(view, WinContainerToken)
    case None => []
    case Some(container) => Collect(container.items, WinRateRow)
  }

  /** The forEach callback of phase 1 for one item: the row it pushes, if any. */
  method ReadWinRateItem(li: ListItem) returns (row: Option<WinRateRecord>)
    ensures row == WinRateRow(li)
  {
    var name := TrimmedText(li, WinNameToken);
    var rate := TrimmedText(li, WinRateToken);
    var icon := ItemIcon(li);
    if name.Some? && name.value != "" {
      var shown := if rate.Some? && rate.value != "" then rate.value else NoWinRate;
      return Some(WinRateRecord(name.value, shown, icon));
    }
    return None;
  }

  /** Phase 1: one pass over the items of the win-rate container. */
  method ExtractWinRates(view: View) returns (list: seq<WinRateRecord>)
    ensures list == WinRateRows(view)
  {
    var container := QueryArticle(view, WinContainerToken);
    if container.None? {
      return [];
    }
    var items := container.value.items;
    list := [];
    var i := 0;
    while i < |items|
      invariant 0 <= i <= |items|
      invariant list == Collect(items[..i], WinRateRow)
    {
      var li := items[i];
      var row := ReadWinRateItem(li);
      if row.Some? {
        CollectKeeps(items, WinRateRow, i);
        list := list + [row.value];
      } else {
        CollectSkips(items, WinRateRow, i);
      }
      i := i + 1;
    }
    assert items[..i] == items;
  }

  /** An item yields a win-rate row exactly when its name element has non-empty
      trimmed text; the row carries that name, the trimmed rate text or "-" when
      that is missing or empty, and an icon that is not root-relative. The
      aggregate "ALL" item is not excluded. */
  lemma WinRateRowSpec(li: ListItem)
    ensures WinRateRow(li).Some? <==> TrimmedText(li, WinNameToken).Some? && TrimmedText(li, WinNameToken).value != ""
    ensures WinRateRow(li).Some? ==> var row := WinRateRow(li).value;
      && row.name == TrimmedText(li, WinNameToken).value
      && row.rate != ""
      && (row.rate == NoWinRate <==> TrimmedText(li, WinRateToken).None? || TrimmedText(li, WinRateToken).value in {"", NoWinRate})
      && (TrimmedText(li, WinRateToken).Some? && TrimmedText(li, WinRateToken).value != "" ==>
            row.rate == TrimmedText(li, WinRateToken).value)
      && !StartsWith(row.icon, "/")
  {
    IconUrlSpec(QueryTag(li.descendants, "img"));
  }

  // ---------------------------------------------------------------- league points

  /** The LP row of an item: whenever it has a name element (even one with empty
      text); the LP defaults to "0". */
  function LpRow(li: ListItem): Option<LpRecord> {
    match TrimmedText(li, LpNameToken)
    case None => None
    case Some(name) => Some(LpRecord(name, TextOr(li, LpValueToken, NoLpRead), ItemIcon(li)))
  }

  /** The LP rows of the LP tab: none without the container. */
  function LpRows(view: View): seq<LpRecord> {
    match QueryArticle(view, LpContainerToken)
    case None => []
    case Some(container) => Collect(container.items, LpRow)
  }

  /** The forEach callback of phase 3 for one item: the row it pushes, if any. */
  method ReadLpItem(li: ListItem) returns (row: Option<LpRecord>)
    ensures row == LpRow(li)
  {
    var nameEl := QueryClass(li.descendants, LpNameToken);
    var lpEl := TrimmedText(li, LpValueToken);
    var icon := ItemIcon(li);
    if nameEl.Some? {
      var lp := if lpEl.Some? && lpEl.value != "" then lpEl.value else NoLpRead;
      return Some(LpRecord(Trim(nameEl.value.text), lp, icon));
    }
    return None;
  }

  /** Phase 3: one pass over the items of the league-point container. */
  method ExtractLeaguePoints(view: View) returns (list: seq<LpRecord>)
    ensures list == LpRows(view)
  {
    var container := QueryArticle(view, LpContainerToken);
    if container.None? {
      return [];
    }
    var items := container.value.items;
    list := [];
    var i := 0;
    while i < |items|
      invariant 0 <= i <= |items|
      invariant list == Collect(items[..i], LpRow)
    {
      var li := items[i];
      var row := ReadLpItem(li);
      if row.Some? {
        CollectKeeps(items, LpRow, i);
        list := list + [row.value];
      } else {
        CollectSkips(items, LpRow, i);
      }
      i := i + 1;
    }
    assert items[..i] == items;
  }

  /** An item yields an LP row exactly when it has a name element; the LP is the
      trimmed LP text, or "0" when that is missing or empty, and is never empty. */
  lemma LpRowSpec(li: ListItem)
    ensures LpRow(li).Some? <==> QueryClass(li.descendants, LpNameToken).Some?
    ensures LpRow(li).Some? ==> var row := LpRow(li).value;
      && row.name == Trim(QueryClass(li.descendants, LpNameToken).value.text)
      && row.lp != ""
      && (TrimmedText(li, LpValueToken).Some? && TrimmedText(li, LpValueToken).value != "" ==>
            row.lp == TrimmedText(li, LpValueToken).value)
      && (TrimmedText(li, LpValueToken).None? || TrimmedText(li, LpValueToken).value == "" ==> row.lp == NoLpRead)
      && !StartsWith(row.icon, "/")
  {
    IconUrlSpec(QueryTag(li.descendants, "img"));
  }

  // ---------------------------------------------------------------- master rates

  /** The MR row of an item: whenever it has a name element (the MR list reuses
      the LP list's name class); the MR defaults to "---". */
  function MrRow(li: ListItem): Option<MrRecord> {
    match TrimmedText(li, LpNameToken)
    case None => None
    case Some(name) => Some(MrRecord(name, TextOr(li, MrValueToken, NoMrRead)))
  }

  /** The MR rows of the MR tab: none without the container. */
  function MrRows(view: View): seq<MrRecord> {
    match QueryArticle(view, MrContainerToken)
    case None => []
    case Some(container) => Collect(container.items, MrRow)
  }

  /** The forEach callback of phase 5 for one item: the row it pushes, if any. */
  method ReadMrItem(li: ListItem) returns (row: Option<MrRecord>)
    ensures row == MrRow(li)
  {
    var nameEl := QueryClass(li.descendants, LpNameToken);
    var mrEl := TrimmedText(li, MrValueToken);
    if nameEl.Some? {
      var mr := if mrEl.Some? && mrEl.value != "" then mrEl.value else NoMrRead;
      return Some(MrRecord(Trim(nameEl.value.text), mr));
    }
    return None;
  }

  /** Phase 5: one pass over the items of the master-rate container. */
  method ExtractMasterRates(view: View) returns (list: seq<MrRecord>)
    ensures list == MrRows(view)
  {
    var container := QueryArticle(view, MrContainerToken);
    if container.None? {
      return [];
    }
    var items := container.value.items;
    list := [];
    var i := 0;
    while i < |items|
      invariant 0 <= i <= |items|
      invariant list == Collect(items[..i], MrRow)
    {
      var li := items[i];
      var row := ReadMrItem(li);
      if row.Some? {
        CollectKeeps(items, MrRow, i);
        list := list + [row.value];
      } else {
        CollectSkips(items, MrRow, i);
      }
      i := i + 1;
    }
    assert items[..i] == items;
  }

  /** An item yields an MR row exactly when it has a name element; the MR is the
      trimmed MR text, or "---" when that is missing or empty, and is never empty. */
  lemma MrRowSpec(li: ListItem)
    ensures MrRow(li).Some? <==> QueryClass(li.descendants, LpNameToken).Some?
    ensures MrRow(li).Some? ==> var row := MrRow(li).value;
      && row.name == Trim(QueryClass(li.descendants, LpNameToken).value.text)
      && row.mr != ""
      && (TrimmedText(li, MrValueToken).Some? && TrimmedText(li, MrValueToken).value != "" ==>
            row.mr == TrimmedText(li, MrValueToken).value)
      && (TrimmedText(li, MrValueToken).None? || TrimmedText(li, MrValueToken).value == "" ==> row.mr == NoMrRead)
  {
  }

  /** Every row read from a page carries the fields its item gave it: the win-rate
      rows have a name and a rate; LP and MR rows have an LP and an MR. */
  lemma RowsSpec(winView: View, lpView: View, mrView: View)
    ensures forall k :: 0 <= k < |WinRateRows(winView)| ==>
      WinRateRows(winView)[k].name != "" && WinRateRows(winView)[k].rate != ""
    ensures forall k :: 0 <= k < |LpRows(lpView)| ==> LpRows(lpView)[k].lp != ""
    ensures forall k :: 0 <= k < |MrRows(mrView)| ==> MrRows(mrView)[k].mr != ""
  {
    WinRateRowsSpec(winView);
    LpRowsSpec(lpView);
    MrRowsSpec(mrView);
  }

  lemma WinRateRowsSpec(view: View)
    ensures forall k :: 0 <= k < |WinRateRows(view)| ==>
      WinRateRows(view)[k].name != "" && WinRateRows(view)[k].rate != ""
  {
    forall k | 0 <= k < |WinRateRows(view)|
      ensures WinRateRows(view)[k].name != "" && WinRateRows(view)[k].rate != ""
    {
      var items := QueryArticle(view, WinContainerToken).value.items;
      CollectFrom(items, WinRateRow, k);
      var i :| 0 <= i < |items| && WinRateRow(items[i]) == Some(WinRateRows(view)[k]);
      WinRateRowSpec(items[i]);
    }
  }

  lemma LpRowsSpec(view: View)
    ensures forall k :: 0 <= k < |LpRows(view)| ==> LpRows(view)[k].lp != ""
  {
    forall k | 0 <= k < |LpRows(view)|
      ensures LpRows(view)[k].lp != ""
    {
      var items := QueryArticle(view, LpContainerToken).value.items;
      CollectFrom(items, LpRow, k);
    }
  }

  lemma MrRowsSpec(view: View)
    ensures forall k :: 0 <= k < |MrRows(view)| ==> MrRows(view)[k].mr != ""
  {
    forall k | 0 <= k < |MrRows(view)|
      ensures MrRows(view)[k].mr != ""
    {
      var items := QueryArticle(view, MrContainerToken).value.items;
      CollectFrom(items, MrRow, k);
    }
  }

  // ---------------------------------------------------------------- tabs

  /** A tab candidate: visible, and its trimmed text includes the caption and is
      shorter than 50 UTF-16 units. */
  predicate IsTabFor(e: Element, caption: string) {
    var t := Trim(e.text);
    Contains(t, caption) && Utf16Length(t) < TabTextLimit && e.visible
  }

  /** clickTab: click the first candidate among the li, div, span, a and p
      elements; report whether there was one. */
  function ClickTab(doc: seq<Element>, caption: string): (clicked: bool) {
    Find(SelectAll(doc, ClickTabTags), (e: Element) => IsTabFor(e, caption)).Some?
  }

  /** A tab is clicked exactly when some li, div, span, a or p element of the
      document qualifies; in particular a visible element whose trimmed text is
      the caption itself qualifies, and nothing whose trimmed text is 50
      characters or longer does. */
  lemma ClickTabSpec(doc: seq<Element>, caption: string)
    ensures ClickTab(doc, caption) <==> exists e :: e in doc && e.tag in ClickTabTags && IsTabFor(e, caption)
    ensures forall e: Element :: e.visible && Trim(e.text) == caption && Utf16Length(caption) < TabTextLimit ==>
      IsTabFor(e, caption)
    ensures forall e: Element :: |Trim(e.text)| >= TabTextLimit ==> !IsTabFor(e, caption)
  {
    forall e: Element | e.visible && Trim(e.text) == caption && Utf16Length(caption) < TabTextLimit
      ensures IsTabFor(e, caption)
    {
      assert StartsWith(Trim(e.text), caption);
    }
  }

  // ---------------------------------------------------------------- merge

  /** `a.toUpperCase() === b.toUpperCase()`. */
  predicate SameName(a: string, b: string) {
    AsciiUpper(a) == AsciiUpper(b)
  }

  /** `lpData.find(...)`: the first LP row for the name. */
  function FindLp(lps: seq<LpRecord>, name: string): Option<nat> {
    Find(lps, (l: LpRecord) => SameName(l.name, name))
  }

  /** `mrData.find(...)`: the first MR row for the name. */
  function FindMr(mrs: seq<MrRecord>, name: string): Option<nat> {
    Find(mrs, (m: MrRecord) => SameName(m.name, name))
  }

  /** One character of the response, built from its win-rate row. */
  function MergeOne(win: WinRateRecord, lps: seq<LpRecord>, mrs: seq<MrRecord>): CharData {
    var lpMatch := FindLp(lps, win.name);
    var mrMatch := FindMr(mrs, win.name);
    var lpIcon := if lpMatch.Some? then lps[lpMatch.value].icon else "";
    CharData(
      win.name,
      if lpMatch.Some? then lps[lpMatch.value].lp else NoLpMatch,
      if mrMatch.Some? then mrs[mrMatch.value].mr else NoMrMatch,
      win.rate,
      OrElse(OrElse(lpIcon, win.icon), ""))
  }

  /** `winRateData.map(...)`: one character per win-rate row, in the same order. */
  function Merge(wins: seq<WinRateRecord>, lps: seq<LpRecord>, mrs: seq<MrRecord>): (r: seq<CharData>)
    ensures |r| == |wins|
    ensures forall i :: 0 <= i < |wins| ==> r[i] == MergeOne(wins[i], lps, mrs)
  {
    seq(|wins|, i requires 0 <= i < |wins| => MergeOne(wins[i], lps, mrs))
  }

  /** The join, stated without the lookup functions: each character keeps its
      name and win rate; it takes the LP (and the icon, unless that is empty) of
      the first LP row whose name equals it ignoring case, or "---" and the
      win-rate icon when there is none; it takes the MR of the first such MR row,
      or "" when there is none. */
  lemma MergeSpec(wins: seq<WinRateRecord>, lps: seq<LpRecord>, mrs: seq<MrRecord>, i: nat)
    requires i < |wins|
    ensures var c, w := Merge(wins, lps, mrs)[i], wins[i];
      && c.name == w.name && c.winRate == w.rate
      && ((forall j :: 0 <= j < |lps| ==> !SameName(lps[j].name, w.name)) ==>
            c.lp == NoLpMatch && c.icon == w.icon)
      && (forall j :: (0 <= j < |lps| && SameName(lps[j].name, w.name)
                       && forall k :: 0 <= k < j ==> !SameName(lps[k].name, w.name)) ==>
            c.lp == lps[j].lp && c.icon == (if lps[j].icon != "" then lps[j].icon else w.icon))
      && ((forall j :: 0 <= j < |mrs| ==> !SameName(mrs[j].name, w.name)) ==> c.mr == NoMrMatch)
      && (forall j :: (0 <= j < |mrs| && SameName(mrs[j].name, w.name)
                       && forall k :: 0 <= k < j ==> !SameName(mrs[k].name, w.name)) ==>
            c.mr == mrs[j].mr)
  {
    var w := wins[i];
    var lpMatch := FindLp(lps, w.name);
    var mrMatch := FindMr(mrs, w.name);
    forall j | 0 <= j < |lps| && SameName(lps[j].name, w.name)
        && (forall k :: 0 <= k < j ==> !SameName(lps[k].name, w.name))
      ensures lpMatch == Some(j)
    {
    }
    forall j | 0 <= j < |mrs| && SameName(mrs[j].name, w.name)
        && (forall k :: 0 <= k < j ==> !SameName(mrs[k].name, w.name))
      ensures mrMatch == Some(j)
    {
    }
  }

  /** Without the MR tab every character's MR is empty. */
  lemma MergeWithoutMr(wins: seq<WinRateRecord>, lps: seq<LpRecord>)
    ensures forall i :: 0 <= i < |wins| ==> Merge(wins, lps, [])[i].mr == NoMrMatch
  {
  }

  /** The join ignores case: a win-rate row "RYU" takes the LP, MR and (being
      non-empty) icon of rows named "Ryu" and "ryu"; an LP row with an empty icon
      leaves the win-rate icon in place. */
  lemma MergeExample()
    ensures Merge([WinRateRecord("RYU", "55%", "w.png")],
                  [LpRecord("Ken", "9000", "k.png"), LpRecord("Ryu", "12000", "l.png")],
                  [MrRecord("ryu", "1600")])
         == [CharData("RYU", "12000", "1600", "55%", "l.png")]
    ensures Merge([WinRateRecord("RYU", "55%", "w.png")], [LpRecord("Ryu", "12000", "")], [])
         == [CharData("RYU", "12000", "", "55%", "w.png")]
  {
    assert AsciiUpper("Ryu") == "RYU";
    assert AsciiUpper("ryu") == "RYU";
    assert AsciiUpper("Ken") == "KEN";
    assert AsciiUpper("RYU") == "RYU";
    var lps := [LpRecord("Ken", "9000", "k.png"), LpRecord("Ryu", "12000", "l.png")];
    assert FindLp(lps, "RYU") == Some(1) by {
      assert !SameName(lps[0].name, "RYU");
      assert SameName(lps[1].name, "RYU");
    }
    assert FindMr([MrRecord("ryu", "1600")], "RYU") == Some(0) by {
      assert SameName("ryu", "RYU");
    }
    assert FindLp([LpRecord("Ryu", "12000", "")], "RYU") == Some(0) by {
      assert SameName("Ryu", "RYU");
    }
  }

  // ---------------------------------------------------------------- route

  /** What the page reads at each step of the route. */
  datatype StatsPages = StatsPages(
    winView: View,         // the play page once loaded
    lpTabs: seq<Element>,  // the page's elements when the LP tab is looked for
    lpView: View,          // the page after the LP tab delay
    mrTabs: seq<Element>,  // the page's elements when the MR tab is looked for
    mrView: View)          // the page after the MR tab delay

  /** GET /api/stats: 400 without userCode, 500 without the cookie setting;
      otherwise the win-rate rows joined with the LP rows and, only when the MR
      tab was clicked, with the MR rows. Whether the LP tab was found does not
      matter: its page is read either way. */
  method FetchStats(userCode: Option<string>, cookieEnv: Option<string>, pages: StatsPages)
    returns (resp: Response<seq<CharData>>, mrClicked: bool)
    ensures !Given(userCode) ==> resp == Error(400, MissingUserCode)
    ensures Given(userCode) && CookieJar(cookieEnv).None? ==> resp == Error(500, NoCookieConfig)
    ensures Given(userCode) && CookieJar(cookieEnv).Some? ==>
      && (mrClicked <==> ClickTab(pages.mrTabs, MrTabLabel))
      && resp == Ok(Merge(WinRateRows(pages.winView), LpRows(pages.lpView),
                          if mrClicked then MrRows(pages.mrView) else []))
  {
    mrClicked := false;
    if !Given(userCode) {
      return Error(400, MissingUserCode), mrClicked;
    }
    var cookies := CookieJar(cookieEnv);
    if cookies.None? {
      return Error(500, NoCookieConfig), mrClicked;
    }
    var winRateData := ExtractWinRates(pages.winView);
    var _ := ClickTab(pages.lpTabs, LpTabLabel);
    var lpData := ExtractLeaguePoints(pages.lpView);
    mrClicked := ClickTab(pages.mrTabs, MrTabLabel);
    var mrData: seq<MrRecord> := [];
    if mrClicked {
      mrData := ExtractMasterRates(pages.mrView);
    }
    resp := Ok(Merge(winRateData, lpData, mrData));
  }

  /** The response has one character per win-rate row, in page order, each with a
      non-empty name and win rate; a missing MR tab leaves every MR empty. */
  lemma StatsResponseSpec(userCode: Option<string>, cookieEnv: Option<string>, pages: StatsPages, mrClicked: bool)
    ensures var data := Merge(WinRateRows(pages.winView), LpRows(pages.lpView),
                              if mrClicked then MrRows(pages.mrView) else []);
      && |data| == |WinRateRows(pages.winView)|
      && (forall i :: 0 <= i < |data| ==> data[i].name != "" && data[i].winRate != "")
      && (!mrClicked ==> forall i :: 0 <= i < |data| ==> data[i].mr == NoMrMatch)
  {
    RowsSpec(pages.winView, pages.lpView, pages.mrView);
  }

  /** The aggregate row is kept: an item whose name element reads "ALL" yields a
      win-rate row, and with it a character named "ALL" in the response. */
  lemma AllRowKept(li: ListItem)
    requires TrimmedText(li, WinNameToken) == Some("ALL")
    ensures WinRateRow(li).Some? && WinRateRow(li).value.name == "ALL"
  {
  }
}
