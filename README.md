# SF6 tracker scraping rules, in Dafny

The SF6 tracker is a Next.js application. It signs in to the Street Fighter 6
"Buckler" site with a session cookie and scrapes several things:

- a player's per-character win rate, league points (LP) and master rate (MR);
- the per-opponent matchup breakdown of one character;
- the user code that belongs to a player name.

The browser work is Puppeteer I/O. Inside it sit small deterministic rules, and
this project models those rules and proves what they promise.

The model reads the rendered page as plain records (`Dom`):

- an element is its tag, its `textContent`, whether it is visible
  (`offsetParent !== null`), and its attribute map;
- a list item is its `innerText` and its descendant elements;
- a view is the sequence of containers of a page.

Each `querySelector`/`find` becomes "the first element, in document order, that
satisfies a predicate" (`Base.Find`). Each route handler becomes a method. For
every I/O step it takes the page snapshot that step would read, and it returns
the response: a status with an error message, or the data.

Modules, following the program:

- `Strings`: JavaScript's `trim`, `includes`, `startsWith`, `endsWith`,
  `split`/`join` with one separator, ASCII case mapping, decimal digits and
  UTF-16 length.
- `Base`: option and response types, `Find`, `Filter`, and `Collect`.
  `Collect` is what a `forEach` loop that pushes some of its items into a list
  computes.
- `Dom`: the page records, the CSS queries the scripts use, and the icon URL
  rewrite.
- `Cookies`: parsing of the `SF6_COOKIE` setting, which is shared by the three
  routes.
- `NameKey`: the character-name key (`normalize`) and the fuzzy match rule of
  the character modal.
- `Patterns`: the three regular expressions of the matchup extractor.
  - `/(\d+)戦/`
  - `/(\d+(\.\d+)?)%/`
  - `/width:\s*(\d+(\.\d+)?)%/`

  Each is a leftmost scan with an anchored matcher.
- `Matchups`: `GET /api/matchups`, which covers the tab switch, the
  `selectCharacter` step sequence and the row extractor.
- `Stats`: `GET /api/stats`, which covers the three extractors, `clickTab`, and
  the join of the three lists.
- `SearchId`: `GET /api/search-id`, which covers the search box lookup and the
  profile-link code.
- `Page`: the page helpers `getCharImage`, `parseNum`, the MR badge condition,
  and `getRankings`.

The extractors follow the source's shape.

- Each `forEach` loop is a `while` loop that pushes into `list`. The loop is
  proved equal to `Collect(items, Row)`, where `Row` is the row function of one
  item.
- The body of the callback is a method with the source's fallback
  reassignments, such as `let count = "0戦"` and the branches that replace it.
  That method is proved equal to the row function.
- The properties of the rows are lemmas about the row functions.

Behaviour of the code that is easy to get wrong, and that the model keeps:

- `/api/search-id` answers a single `userCode`: the code of the first profile
  link. It does not answer a list of players with names and snippets.
- The win-rate extractor of `/api/stats` does not skip the aggregate "ALL" item,
  so an "ALL" character can appear in the stats response. `Stats.AllRowKept`
  states this. Only the matchup extractor skips "ALL".
- The join of `/api/stats` compares names with `toUpperCase()` equality. It does
  not use the `normalize` key of the character modal.
- The MR view is found through the `master_rate` container. Its items are read
  through the `league_point_name` and `league_point_mr` class tokens.
- A request that throws is answered with 500, but the browser is not closed on
  that path.

## Model

| member | source | states |
|---|---|---|
| NameKey.NormalizeChars | app/api/matchups/route.ts:180 | a name key holds only A–Z and 0–9 and is no longer than its text |
| NameKey.NormalizeIdempotent | app/api/matchups/route.ts:180 | normalizing a key again leaves it unchanged |
| NameKey.NormalizeKey | app/api/matchups/route.ts:180 | a string made only of A–Z and 0–9 is its own key |
| NameKey.NormalizeExamples | app/api/matchups/route.ts:178-182 | "J.P." has key "JP" and "Luke" has key "LUKE" |
| NameKey.ShortKeyExact | app/api/matchups/route.ts:197-201 | a target key of at most two characters matches a candidate exactly when the two are equal |
| NameKey.KeyMatchesBounds | app/api/matchups/route.ts:197-206 | any match contains the target, and the candidate is at least as long as the target and fewer than ten characters longer |
| NameKey.LongCandidateRejected | app/api/matchups/route.ts:206 | a candidate ten or more characters longer than the target never matches |
| NameKey.KeyMatchesSelf | app/api/matchups/route.ts:197-206 | every key matches itself, whatever its length |
| NameKey.KeyMatchesExamples | app/api/matchups/route.ts:195-206 | "JAJP" does not match "JP"; "JP" matches "JP"; "GOUKICLASSIC" matches "GOUKI" |
| Matchups.TabLookupSpec | app/api/matchups/route.ts:50-54 | the tab lookup gives the first visible element whose trimmed text is exactly "キャラクター別対戦数", and gives none when no element qualifies |
| Matchups.ConfirmLookupSpec | app/api/matchups/route.ts:229-233 | the confirm lookup gives the first visible element whose trimmed text is exactly "変更する", and gives none when no element qualifies |
| Matchups.PickCharacterSpec | app/api/matchups/route.ts:182-208 | the chosen modal element is the first visible one whose key is non-empty and matches the target key; no choice means that no element qualifies |
| Matchups.EmptyKeyPicksNothing | app/api/matchups/route.ts:188-193 | a requested name without Latin letters or digits selects no element |
| Matchups.SelectCharacter | app/api/matchups/route.ts:160-254 | the selection succeeds exactly when the opener, a matching character among the li, span and div elements and the confirm button among the button, div, a and span elements are all found; a missing step gives false |
| Matchups.ReadCount | app/api/matchups/route.ts:103-109 | the count reassignments compute the count function of the item |
| Matchups.ReadRate | app/api/matchups/route.ts:112-124 | the rate reassignments compute the rate function of the item |
| Matchups.ReadIcon | app/api/matchups/route.ts:127-134 | the icon reassignments compute the icon URL of the item's first image |
| Matchups.ReadMatchupItem | app/api/matchups/route.ts:87-142 | the callback for one item pushes exactly the row that the row function gives, or nothing |
| Matchups.ExtractMatchups | app/api/matchups/route.ts:80-145 | the extraction loop returns the rows of the items in page order, and none without the container |
| Matchups.MatchupRowsOnePerItem | app/api/matchups/route.ts:96-98 | an item without a name element, with an empty name, or named "ALL" adds no row; every other item adds one row, named by its trimmed name, after the rows of the items before it |
| Matchups.CountOfSpec | app/api/matchups/route.ts:103-109 | the count is the rate element's trimmed text when that contains 戦; else the match of `(\d+)戦` in the item's text, which is the leftmost one with its whole digit run; else "0戦"; it always contains 戦 |
| Matchups.RateOfSpec | app/api/matchups/route.ts:112-124 | the rate is the leftmost percentage of the text, with its whole number; without one, a graph bar whose style yields a width value gives that value followed by "%"; with neither, "---"; it is "---" or a percentage |
| Matchups.MatchupRowsSpec | app/api/matchups/route.ts:87-142 | every extracted row has a non-empty opponent other than "ALL", a count with 戦, a percentage or "---", and an icon that is not root-relative |
| Matchups.FetchMatchups | app/api/matchups/route.ts:4-156 | 400 without userCode or character; 500 without the cookie setting; otherwise the page's rows, whether or not the tab switch and the selection succeeded; the tab is looked for among the li, div, span and a elements |
| Dom.IconUrlSpec | app/api/matchups/route.ts:127-134 | a src that starts with "/" gets the site origin prefixed; any other src is kept unchanged; no image gives ""; the icon is never root-relative |
| Dom.QueryClass | app/api/matchups/route.ts:89-91 | `[class*=token]` finds an element exactly when some element's class contains the token, and it finds the first such element in document order |
| Dom.QueryTag | app/api/matchups/route.ts:94 | `querySelector('img')` finds an element exactly when some element has the tag, and it finds the first such element in document order |
| Dom.QueryArticle | app/api/matchups/route.ts:81 | `article[class*=token]` finds the first article in document order whose class contains the token; none is found only when no article qualifies |
| Dom.SelectAll | app/api/matchups/route.ts:50 | the selected elements are exactly the document's elements whose tag is one of the listed tags |
| Patterns.CountEndAtSpec | app/api/matchups/route.ts:107 | a text of digits and 戦 starting at a position is exactly what the scan from that position finds |
| Patterns.CountMatchSpec | app/api/matchups/route.ts:107-108 | the match of `(\d+)戦` occurs at the leftmost position where any text of digits and 戦 starts, and takes the whole run of digits; no match means no such text occurs |
| Patterns.CountExample | app/api/matchups/route.ts:107-108 | "12戦" gives "12戦", not "2戦" |
| Patterns.PercentEndAtSpec | app/api/matchups/route.ts:113 | a percentage text starting at a position is exactly what the scan from that position finds |
| Patterns.PercentMatchSpec | app/api/matchups/route.ts:113-115 | the match of `(\d+(\.\d+)?)%` occurs at the leftmost position where any percentage text starts, and takes the whole number; no match means no percentage text occurs |
| Patterns.PercentExample | app/api/matchups/route.ts:113-115 | "12.5%" gives "12.5%", not "5%" |
| Patterns.WidthValueAtSpec | app/api/matchups/route.ts:120 | "width:", white space and a percentage starting at a position give that percentage's number as the value read there |
| Patterns.WidthMatchSpec | app/api/matchups/route.ts:119-121 | the width value is group 1 of the leftmost match of `width:\s*(\d+(\.\d+)?)%`, the number after "width:" and any white space; no value means no match; a style with a value contains "width" |
| Patterns.WidthExample | app/api/matchups/route.ts:119-121 | "width: 55%" gives "55" |
| Cookies.ParseCookieSpec | app/api/stats/route.ts:34-37 | a cookie's name is the trimmed piece up to its first "=", and name, "=" and value give the piece back; a piece without "=" is all name with an empty value; the domain is always ".streetfighter.com" |
| Cookies.ParseCookies | app/api/matchups/route.ts:35-38 | one cookie per ";"-separated piece, in order |
| Cookies.ParseCookiesCount | app/api/search-id/route.ts:32-35 | the number of cookies is one more than the number of ";" |
| Cookies.CookieJar | app/api/stats/route.ts:29-33 | there are cookies exactly when the setting is present and non-empty; otherwise the route answers 500 |
| Stats.ReadWinRateItem | app/api/stats/route.ts:53-66 | the phase 1 callback for one item pushes exactly the win-rate row of the item, or nothing |
| Stats.ExtractWinRates | app/api/stats/route.ts:48-68 | the phase 1 loop returns the win-rate rows of the items in page order, and none without the container |
| Stats.WinRateRowSpec | app/api/stats/route.ts:54-65 | an item yields a row exactly when its name text is non-empty; the rate is the trimmed rate text, or "-" when that is missing or empty; the icon is not root-relative |
| Stats.AllRowKept | app/api/stats/route.ts:65 | an item named "ALL" still yields a win-rate row named "ALL" |
| Stats.ReadLpItem | app/api/stats/route.ts:82-95 | the phase 3 callback for one item pushes exactly the LP row of the item, or nothing |
| Stats.ExtractLeaguePoints | app/api/stats/route.ts:77-97 | the phase 3 loop returns the LP rows of the items in page order, and none without the container |
| Stats.LpRowSpec | app/api/stats/route.ts:83-94 | an item yields an LP row exactly when it has a name element, even one with empty text; the LP is the trimmed text, or "0" when that is missing or empty |
| Stats.ReadMrItem | app/api/stats/route.ts:113-122 | the phase 5 callback for one item pushes exactly the MR row of the item, or nothing |
| Stats.ExtractMasterRates | app/api/stats/route.ts:108-124 | the phase 5 loop returns the MR rows of the items in page order, and none without the container |
| Stats.MrRowSpec | app/api/stats/route.ts:114-120 | an item yields an MR row exactly when it has a name element; the MR is the trimmed text, or "---" when that is missing or empty |
| Stats.RowsSpec | app/api/stats/route.ts:48-124 | every win-rate row has a non-empty name and rate; every LP row has a non-empty LP; every MR row has a non-empty MR |
| Stats.ClickTabSpec | app/api/stats/route.ts:155-167 | a tab is clicked exactly when some visible li, div, span, a or p element's trimmed text contains the caption and is under 50 UTF-16 units; the caption alone qualifies, and text of 50 or more characters never does |
| Stats.Merge | app/api/stats/route.ts:130-144 | the join has one character per win-rate row, in the same order |
| Stats.MergeSpec | app/api/stats/route.ts:130-143 | each character keeps its name and win rate; it takes the LP of the first LP row with the same upper-cased name, or "---"; it takes the MR of the first such MR row, or ""; its icon is the matched LP icon if non-empty, else the win-rate icon |
| Stats.MergeWithoutMr | app/api/stats/route.ts:102-140 | with an empty MR list every character's MR is "" |
| Stats.MergeExample | app/api/stats/route.ts:131-135 | "RYU" joins with "Ryu" and "ryu"; an LP row with an empty icon leaves the win-rate icon |
| Stats.FetchStats | app/api/stats/route.ts:7-152 | 400 without userCode; 500 without the cookie setting; otherwise the join of the win-rate and LP rows, and of the MR rows only when the MR tab was clicked |
| Stats.StatsResponseSpec | app/api/stats/route.ts:101-146 | the response has one character per win-rate row, each with a non-empty name and win rate; without the MR tab every MR is "" |
| SearchId.FindSearchInput | app/api/search-id/route.ts:51-56 | the chosen input is a text input (its type compared without ASCII case) whose placeholder (or "" when absent) contains "ID", "Fighter" or "検索"; none is chosen only when no text input qualifies |
| SearchId.ProfileCodeSpec | app/api/search-id/route.ts:89-95 | an href yields a code exactly when it ends with "/profile/" followed by one or more digits; the code is those digits, and the href ends with "/profile/" followed by the code |
| SearchId.ProfileCodeExamples | app/api/search-id/route.ts:88-89 | ".../profile/1234567890" yields "1234567890"; a link that continues after the digits, or has no digits, yields nothing |
| SearchId.FirstProfileCode | app/api/search-id/route.ts:83-97 | a code is found exactly when some link qualifies, and it is the code of the first qualifying link |
| SearchId.FirstProfileCodeDigits | app/api/search-id/route.ts:93-95 | a found user code is a non-empty run of digits |
| SearchId.SearchUserCode | app/api/search-id/route.ts:4-113 | 400 without a name; 500 without the cookie setting; 404 without a search box; otherwise the code of the first profile link, or 404 when there is none; a returned code is non-empty and all digits |
| Page.CharImageSpec | app/page.tsx:21-25 | the image path is "" exactly for the empty name; otherwise it is "/characters/" + the name without white space, lower-cased + ".png" |
| Page.CharImageDropsSpace | app/page.tsx:23 | a space inside a name does not change its image path |
| Page.CharImageExample | app/page.tsx:21-25 | "" gives ""; "Ryu" gives "/characters/ryu.png" |
| Page.ParseNumNoDigits | app/page.tsx:71 | a text without digits reads as 0 |
| Page.ParseNumShow | app/page.tsx:71 | a numeral followed by a unit without digits, such as "5戦", reads as that number |
| Page.ParseNumPositive | app/page.tsx:71 | a text reads as a positive number exactly when it holds a digit other than '0' |
| Page.ParseNumExamples | app/page.tsx:71 | "0戦" reads as 0, "5戦" as 5, and "---" as 0 |
| Page.ShowMrBadgeSpec | app/page.tsx:153 | the MR badge is shown exactly when the MR holds a digit other than '0'; it is never shown for "" or "---" |
| Page.InsertSorted | app/page.tsx:83 | inserting into a sequence sorted by rate keeps it sorted |
| Page.SortBy | app/page.tsx:83-88 | the sort returns a permutation of its input in rate order, from high to low or from low to high |
| Page.NothingPlayed | app/page.tsx:78-80 | with no played matchup, best and worst are both empty |
| Page.GetRankingsMembers | app/page.tsx:76-93 | best and worst each hold min(3, number played) matchups, all played, taken from the input without duplication |
| Page.GetRankingsOrder | app/page.tsx:82-90 | best runs from the highest rate down and worst from the lowest up; no played matchup left out of best rates higher than one in it, and none left out of worst rates lower |
| Page.GetRankingsOfThree | app/page.tsx:76-93 | an unplayed a and played b and c, with b rated higher, give best [b, c] and worst [c, b] |
| Page.GetRankingsExample | app/page.tsx:76-93 | A (0戦), B (5戦, 80%) and C (3戦, 20%) give best [B, C] and worst [C, B] |
| Strings.TrimShape | app/api/matchups/route.ts:97 | trim removes white space, and only white space, from both ends, and its result neither starts nor ends with white space |
| Strings.TrimIdempotent | app/api/matchups/route.ts:97 | trimming twice is trimming once |
| Strings.JoinSplit | app/api/stats/route.ts:36 | joining the pieces of a split with the same separator gives the string back |
| Strings.SplitCount | app/api/stats/route.ts:34 | a split yields one piece more than there are separators |

## Left out

- Browser work is not modelled. That covers launching Puppeteer, `page.goto`,
  cookie installation, clicks, key presses, the fixed delays and closing the
  browser. Each step is replaced by the page snapshot it leads to, given as a
  parameter.
- The `catch` blocks that answer 500 with an exception's message are not
  modelled. The exceptions come from the browser I/O.
- Console logging is not modelled. The matchup route's `tabClicked` and
  `isChanged` are returned as outputs, because the route only logs them.
- SearchId.SearchUserCode: writing the name into the search box,
  `dispatchEvent` and the Enter key are browser I/O. The model keeps only
  whether a search box was found, and takes the result page as given.
- The React state, the event handlers and the JSX of the page are not modelled.
- The LP bar width `Math.min(parseNum(lp) / 30000 * 100, 100)` and the colour
  rule for win rates of 50 or more are not modelled. Both are floating-point
  display code.
- Page.GetRankings: `parseRate` (`parseFloat` of the digits and dots) is not
  modelled. The rate is read through an abstract key function `rateKey` into
  the naturals. Any finite set of rates can be ordered that way, because
  `parseRate` never gives a negative number.
- Page.SortBy: the model sorts by stable insertion, as `Array.prototype.sort`
  does. The lemmas state sortedness and permutation, but not the order among
  equal rates.
- Page.ParseNum: the value is an exact natural number. `parseInt` loses
  precision for numerals above 2^53.
- Stats.SameName: `toUpperCase` is modelled on ASCII letters only. JavaScript's
  Unicode case mapping, such as "ß" to "SS", is not modelled.
- Page.CharImage: `toLowerCase` is modelled on ASCII letters only, for the same
  reason.
- Upper-casing in the name key is exact, not a simplification. After `[^a-zA-Z0-9]` is removed, only ASCII
  letters are left to upper-case.
- The white-space set lists the ECMAScript white space and line terminators that
  `trim` and `\s` use, at the Unicode version it was written against.
- Dafny strings hold Unicode scalar values, so lone UTF-16 surrogates cannot be
  represented. `Strings.Utf16Length` counts a code point above U+FFFF as two
  units.
