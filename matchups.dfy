/** The matchup route (app/api/matchups/route.ts): switch to the per-character
    battle tab, pick the requested character in the modal and confirm, then read
    one record per opponent from the win-rate list. Browser I/O is replaced by
    the DOM snapshot each step reads. */
module Matchups {
  import opened Base
  import opened Strings
  import opened Dom
  import opened Patterns
  import opened NameKey
  import opened Cookies

  const MatchupTabLabel: string := "キャラクター別対戦数"
  const ConfirmLabel: string := "変更する"
  const SelectorToken: string := "winning_rate_select_character"
  const ContainerToken: string := "winning_rate"
  const NameToken: string := "winning_rate_name"
  const RateToken: string := "winning_rate_rate"
  const GrafToken: string := "winning_rate_graf"
  const AllRowName: string := "ALL"
  const NoCount: string := "0戦"
  const NoRate: string := "---"
  const MissingParams: string := "情報が不足しています"
  const NoCookieConfig: string := "Cookie設定なし"
  /** The tags of the querySelectorAll calls of the tab click, the character
      search and the confirm button. */
  const TabTags: set<string> := {"li", "div", "span", "a"}
  const ModalTags: set<string> := {"li", "span", "div"}
  const ConfirmTags: set<string> := {"button", "div", "a", "span"}

  /** One opponent row of the breakdown. */
  datatype MatchupRecord = MatchupRecord(opponent: string, count: string, rate: string, icon: string)

  /** A visible element whose trimmed text is exactly the label. */
  predicate HasExactLabel(e: Element, caption: string) {
    Trim(e.text) == caption && e.visible
  }

  /** The first element labelled exactly as the matchup tab. */
  function FindMatchupTab(elems: seq<Element>): Option<nat> {
    Find(elems, (e: Element) => HasExactLabel(e, MatchupTabLabel))
  }

  /** The first element labelled exactly as the confirm button. */
  function FindConfirm(elems: seq<Element>): Option<nat> {
    Find(elems, (e: Element) => HasExactLabel(e, ConfirmLabel))
  }

  /** The tab lookup takes the first visible element whose trimmed text is the
      tab label, and reports none when no element qualifies. */
  lemma TabLookupSpec(elems: seq<Element>)
    ensures FindMatchupTab(elems).Some? ==> var i := FindMatchupTab(elems).value;
      && elems[i].visible && Trim(elems[i].text) == MatchupTabLabel
      && forall j :: 0 <= j < i ==> !HasExactLabel(elems[j], MatchupTabLabel)
    ensures FindMatchupTab(elems).None? ==> forall j :: 0 <= j < |elems| ==> !HasExactLabel(elems[j], MatchupTabLabel)
  {
  }

  /** The confirm lookup takes the first visible element whose trimmed text is
      the button label, and reports none when no element qualifies. */
  lemma ConfirmLookupSpec(elems: seq<Element>)
    ensures FindConfirm(elems).Some? ==> var i := FindConfirm(elems).value;
      && elems[i].visible && Trim(elems[i].text) == ConfirmLabel
      && forall j :: 0 <= j < i ==> !HasExactLabel(elems[j], ConfirmLabel)
    ensures FindConfirm(elems).None? ==> forall j :: 0 <= j < |elems| ==> !HasExactLabel(elems[j], ConfirmLabel)
  {
  }

  /** An element the modal search accepts for a target key: visible, with a
      non-empty key that matches the target key. */
  predicate IsCharacterFor(e: Element, targetKey: string) {
    e.visible && Normalize(e.text) != "" && KeyMatches(Normalize(e.text), targetKey)
  }

  /** The modal element chosen for the requested name: the first one accepted. */
  function PickCharacter(modal: seq<Element>, targetName: string): Option<nat> {
    var targetKey := Normalize(targetName);
    Find(modal, (e: Element) => IsCharacterFor(e, targetKey))
  }

  /** The chosen element is the first visible one with a non-empty key matching
      the requested name's key; an invisible element or one whose key is empty is
      never chosen; no choice means no element qualifies. */
  lemma PickCharacterSpec(modal: seq<Element>, targetName: string)
    ensures PickCharacter(modal, targetName).Some? ==> var i := PickCharacter(modal, targetName).value;
      && i < |modal| && modal[i].visible && Normalize(modal[i].text) != ""
      && KeyMatches(Normalize(modal[i].text), Normalize(targetName))
      && forall j :: 0 <= j < i ==> !IsCharacterFor(modal[j], Normalize(targetName))
    ensures PickCharacter(modal, targetName).None? ==>
      forall j :: 0 <= j < |modal| ==> !IsCharacterFor(modal[j], Normalize(targetName))
  {
  }

  /** A requested name without letters or digits selects nothing: its key is
      empty, so only an empty key would match, and empty keys are skipped. */
  lemma EmptyKeyPicksNothing(modal: seq<Element>, targetName: string)
    requires Normalize(targetName) == ""
    ensures PickCharacter(modal, targetName).None?
  {
    forall j | 0 <= j < |modal|
      ensures !IsCharacterFor(modal[j], "")
    {
      if IsCharacterFor(modal[j], "") {
        KeyMatchesBounds(Normalize(modal[j].text), "");
      }
    }
  }

  /** selectCharacter: open the modal through the first element whose class
      contains the selector token, pick the character among the li, span and div
      elements, press the confirm button among the button, div, a and span
      elements. Each step reads the document as it is at that moment; a step
      that finds nothing ends the sequence with false. */
  method SelectCharacter(targetName: string, page: seq<Element>, modal: seq<Element>, dialog: seq<Element>)
    returns (changed: bool)
    ensures changed <==> (QueryClass(page, SelectorToken).Some?
                          && PickCharacter(SelectAll(modal, ModalTags), targetName).Some?
                          && FindConfirm(SelectAll(dialog, ConfirmTags)).Some?)
  {
    var opener := QueryClass(page, SelectorToken);
    if opener.None? {
      return false;
    }
    var allElements := SelectAll(modal, ModalTags);
    var picked := PickCharacter(allElements, targetName);
    if picked.None? {
      return false;
    }
    var buttons := SelectAll(dialog, ConfirmTags);
    var confirm := FindConfirm(buttons);
    if confirm.Some? {
      return true;
    } else {
      return false;
    }
  }

  /** The battle count of a row: the rate element's trimmed text when it mentions
      戦, else the first digits-and-戦 in the item's text, else "0戦". */
  function CountOf(li: ListItem): string {
    var rateEl := QueryClass(li.descendants, RateToken);
    if rateEl.Some? && Contains(rateEl.value.text, "戦") then Trim(rateEl.value.text)
    else match CountMatch(li.innerText)
      case Some(m) => m
      case None => NoCount
  }

  /** The win rate of a row: the first percentage in the item's text, else the
      width percentage in the graph bar's style, else "---". */
  function RateOf(li: ListItem): string {
    match PercentMatch(li.innerText)
    case Some(m) => m
    case None =>
      match QueryClass(li.descendants, GrafToken)
      case None => NoRate
      case Some(graf) =>
        var style := GetAttribute(graf, "style");
        if style.Some? && style.value != "" && Contains(style.value, "width") then
          match WidthMatch(style.value)
          case Some(w) => w + "%"
          case None => NoRate
        else NoRate
  }

  /** The trimmed text of the item's name element, if it has one. */
  function NameOf(li: ListItem): Option<string> {
    match QueryClass(li.descendants, NameToken)
    case None => None
    case Some(nameEl) => Some(Trim(nameEl.text))
  }

  /** An item yields a row when it has a name element whose trimmed text is
      neither empty nor the aggregate row's "ALL". */
  predicate IsOpponentItem(li: ListItem) {
    NameOf(li).Some? && NameOf(li).value != "" && NameOf(li).value != AllRowName
  }

  /** The row an item yields, if any. */
  function MatchupRow(li: ListItem): Option<MatchupRecord> {
    if IsOpponentItem(li) then
      Some(MatchupRecord(NameOf(li).value, CountOf(li), RateOf(li), IconUrl(QueryTag(li.descendants, "img"))))
    else None
  }

  /** The rows read from the page: none without the win-rate container. */
  function MatchupRows(view: View): seq<MatchupRecord> {
    match QueryArticle(view, ContainerToken)
    case None => []
    case Some(container) => Collect(container.items, MatchupRow)
  }

  /** The count block of the extraction script: "0戦", replaced by the rate
      element's trimmed text when it mentions 戦, or else by the first match of
      /(\d+)戦/ in the item's text. */
  method ReadCount(li: ListItem, rateEl: Option<Element>) returns (count: string)
    requires rateEl == QueryClass(li.descendants, RateToken)
    ensures count == CountOf(li)
  {
    var fullText := li.innerText;
    count := NoCount;
    if rateEl.Some? && Contains(rateEl.value.text, "戦") {
      count := Trim(rateEl.value.text);
    } else {
      var countMatch := CountMatch(fullText);
      if countMatch.Some? {
        count := countMatch.value;
      }
    }
  }

  /** The rate block: "---", replaced by the first percentage of the item's text,
      or else by the graph bar's width percentage. */
  method ReadRate(li: ListItem, grafEl: Option<Element>) returns (rate: string)
    requires grafEl == QueryClass(li.descendants, GrafToken)
    ensures rate == RateOf(li)
  {
    var fullText := li.innerText;
    rate := NoRate;
    var rateMatch := PercentMatch(fullText);
    if rateMatch.Some? {
      rate := rateMatch.value;
    } else if grafEl.Some? {
      var styleWidth := GetAttribute(grafEl.value, "style");
      if styleWidth.Some? && styleWidth.value != "" && Contains(styleWidth.value, "width") {
        var widthMatch := WidthMatch(styleWidth.value);
        if widthMatch.Some? {
          rate := widthMatch.value + "%";
        }
      }
    }
  }

  /** The icon block: "", replaced by the image's src, made absolute when it is
      root-relative. */
  method ReadIcon(imgEl: Option<Element>) returns (icon: string)
    ensures icon == IconUrl(imgEl)
  {
    icon := "";
    if imgEl.Some? {
      var src := AttributeOrEmpty(imgEl.value, "src");
      if StartsWith(src, "/") {
        icon := Origin + src;
      } else {
        icon := src;
      }
    }
  }

  /** The forEach callback of the extraction script for one item: the row it
      pushes, if any. */
  method ReadMatchupItem(li: ListItem) returns (row: Option<MatchupRecord>)
    ensures row == MatchupRow(li)
  {
    var nameEl := QueryClass(li.descendants, NameToken);
    var rateEl := QueryClass(li.descendants, RateToken);
    var grafEl := QueryClass(li.descendants, GrafToken);
    var imgEl := QueryTag(li.descendants, "img");
    if nameEl.Some? {
      var name := Trim(nameEl.value.text);
      if name != "" && name != AllRowName {
        var count := ReadCount(li, rateEl);
        var rate := ReadRate(li, grafEl);
        var icon := ReadIcon(imgEl);
        return Some(MatchupRecord(name, count, rate, icon));
      }
    }
    return None;
  }

  /** The extraction script: one pass over the container's items, pushing a row for
      each opponent item, with count, rate and icon each starting at its default
      and replaced by the first source that has a value. */
  method ExtractMatchups(view: View) returns (list: seq<MatchupRecord>)
    ensures list == MatchupRows(view)
  {
    var container := QueryArticle(view, ContainerToken);
    if container.None? {
      return [];
    }
    var items := container.value.items;
    list := [];
    var i := 0;
    while i < |items|
      invariant 0 <= i <= |items|
      invariant list == Collect(items[..i], MatchupRow)
    {
      var li := items[i];
      var row := ReadMatchupItem(li);
      if row.Some? {
        CollectKeeps(items, MatchupRow, i);
        list := list + [row.value];
      } else {
        CollectSkips(items, MatchupRow, i);
      }
      i := i + 1;
    }
    assert items[..i] == items;
  }

  /** Items without a name element, with an empty name, or named "ALL" add no row;
      every other item adds exactly one, named by its trimmed name, at the position
      that follows the rows of the items before it. */
  lemma MatchupRowsOnePerItem(items: seq<ListItem>, i: nat)
    requires i < |items|
    ensures !IsOpponentItem(items[i]) ==>
      Collect(items[..i + 1], MatchupRow) == Collect(items[..i], MatchupRow)
    ensures IsOpponentItem(items[i]) ==>
      && |Collect(items[..i], MatchupRow)| < |Collect(items, MatchupRow)|
      && Collect(items, MatchupRow)[|Collect(items[..i], MatchupRow)|].opponent == NameOf(items[i]).value
  {
    if IsOpponentItem(items[i]) {
      CollectAt(items, MatchupRow, i);
    } else {
      CollectSkips(items, MatchupRow, i);
    }
  }

  /** The count is the rate element's trimmed text when that mentions 戦; otherwise
      the leftmost digits-and-戦 of the item's text; otherwise "0戦". Whatever the
      source, the count mentions 戦. */
  lemma CountOfSpec(li: ListItem)
    ensures Contains(CountOf(li), "戦")
    ensures var rateEl := QueryClass(li.descendants, RateToken);
      && (rateEl.Some? && Contains(rateEl.value.text, "戦") ==> CountOf(li) == Trim(rateEl.value.text))
      && (!(rateEl.Some? && Contains(rateEl.value.text, "戦")) && CountMatch(li.innerText).Some? ==>
            CountOf(li) == CountMatch(li.innerText).value
            && exists i :: IsLeftmostCount(li.innerText, i, CountOf(li)))
      && (!(rateEl.Some? && Contains(rateEl.value.text, "戦")) && CountMatch(li.innerText).None? ==>
            CountOf(li) == NoCount)
  {
    var rateEl := QueryClass(li.descendants, RateToken);
    var c := CountOf(li);
    if rateEl.Some? && Contains(rateEl.value.text, "戦") {
      TrimKeepsBattle(rateEl.value.text);
    } else if CountMatch(li.innerText).Some? {
      CountMatchSpec(li.innerText);
      CountTextBattle(CountMatch(li.innerText).value);
    } else {
      assert StartsWith(NoCount[1..], "戦");
    }
  }

  /** A battle count text contains 戦. */
  lemma CountTextBattle(t: string)
    requires IsCountText(t)
    ensures Contains(t, "戦")
  {
    ContainsChar(t, '戦');
    assert t[|t| - 1] == '戦';
  }

  /** Trimming keeps a 戦 that the text contains. */
  lemma TrimKeepsBattle(text: string)
    requires Contains(text, "戦")
    ensures Contains(Trim(text), "戦")
  {
    ContainsChar(text, '戦');
    var k :| 0 <= k < |text| && text[k] == '戦';
    TrimKeeps(text, k);
    ContainsChar(Trim(text), '戦');
  }

  /** The rate is the leftmost percentage of the item's text when there is one;
      otherwise, when the graph bar's style declares a width in percent, that
      number with "%"; otherwise "---". It is always "---" or a percentage. */
  lemma RateOfSpec(li: ListItem)
    ensures RateOf(li) == NoRate || IsPercentText(RateOf(li))
    ensures PercentMatch(li.innerText).Some? ==>
      RateOf(li) == PercentMatch(li.innerText).value
      && exists i :: IsLeftmostPercent(li.innerText, i, RateOf(li))
    ensures var graf := QueryClass(li.descendants, GrafToken);
      PercentMatch(li.innerText).None? && graf.Some? && GetAttribute(graf.value, "style").Some?
      && WidthMatch(GetAttribute(graf.value, "style").value).Some? ==>
      RateOf(li) == WidthMatch(GetAttribute(graf.value, "style").value).value + "%"
    ensures var graf := QueryClass(li.descendants, GrafToken);
      PercentMatch(li.innerText).None?
      && (graf.None? || GetAttribute(graf.value, "style").None?
          || WidthMatch(GetAttribute(graf.value, "style").value).None?) ==>
      RateOf(li) == NoRate
  {
    PercentMatchSpec(li.innerText);
    if PercentMatch(li.innerText).None? {
      var graf := QueryClass(li.descendants, GrafToken);
      if graf.Some? {
        var style := GetAttribute(graf.value, "style");
        if style.Some? {
          var w := WidthMatch(style.value);
          if w.Some? {
            WidthMatchSpec(style.value);
            NumberPercent(w.value);
          }
        }
      }
    }
  }

  /** Every row read from the page names an opponent other than the aggregate,
      counts battles in 戦, gives a percentage or "---", and has an icon that is
      not root-relative. */
  lemma MatchupRowsSpec(view: View, k: nat)
    requires k < |MatchupRows(view)|
    ensures var row := MatchupRows(view)[k];
      && row.opponent != "" && row.opponent != AllRowName
      && Contains(row.count, "戦")
      && (row.rate == NoRate || IsPercentText(row.rate))
      && !StartsWith(row.icon, "/")
  {
    var container := QueryArticle(view, ContainerToken).value;
    CollectFrom(container.items, MatchupRow, k);
    var i :| 0 <= i < |container.items| && MatchupRow(container.items[i]) == Some(MatchupRows(view)[k]);
    var li := container.items[i];
    CountOfSpec(li);
    RateOfSpec(li);
    IconUrlSpec(QueryTag(li.descendants, "img"));
  }

  /** What the page reads at each step of the route. */
  datatype MatchupPages = MatchupPages(
    tabs: seq<Element>,      // the play page's elements
    page: seq<Element>,      // the page's elements before the modal opens
    modal: seq<Element>,     // the page's elements once the modal is open
    dialog: seq<Element>,    // the page's elements after the character is picked
    view: View)              // the page after the confirm delay

  /** GET /api/matchups: 400 without userCode or character, 500 without the cookie
      setting; otherwise the rows of the page as it stands after the tab switch and
      the character selection, whether or not those succeeded. The two flags are
      what the route logs. */
  method FetchMatchups(userCode: Option<string>, character: Option<string>, cookieEnv: Option<string>, pages: MatchupPages)
    returns (resp: Response<seq<MatchupRecord>>, tabClicked: bool, changed: bool)
    ensures !Given(userCode) || !Given(character) ==> resp == Error(400, MissingParams)
    ensures Given(userCode) && Given(character) && CookieJar(cookieEnv).None? ==> resp == Error(500, NoCookieConfig)
    ensures Given(userCode) && Given(character) && CookieJar(cookieEnv).Some? ==>
      && resp == Ok(MatchupRows(pages.view))
      && (tabClicked <==> FindMatchupTab(SelectAll(pages.tabs, TabTags)).Some?)
      && (changed <==> (QueryClass(pages.page, SelectorToken).Some?
                        && PickCharacter(SelectAll(pages.modal, ModalTags), character.value).Some?
                        && FindConfirm(SelectAll(pages.dialog, ConfirmTags)).Some?))
  {
    tabClicked, changed := false, false;
    if !Given(userCode) || !Given(character) {
      return Error(400, MissingParams), tabClicked, changed;
    }
    var cookies := CookieJar(cookieEnv);
    if cookies.None? {
      return Error(500, NoCookieConfig), tabClicked, changed;
    }
    var allElements := SelectAll(pages.tabs, TabTags);
    tabClicked := FindMatchupTab(allElements).Some?;
    changed := SelectCharacter(character.value, pages.page, pages.modal, pages.dialog);
    var matchups := ExtractMatchups(pages.view);
    resp := Ok(matchups);
  }
}
