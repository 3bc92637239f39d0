# neurodash console core, modelled in Dafny

neurodash is a Next.js console for browsing AI models. This project models
the part of it with real logic: how records are chosen, passed along and
resolved as a user works through the pages.

- **The console listing** (`app/console/page.tsx`). The page holds five
  state cells: the search text, the company checkboxes, the type
  checkboxes, the minimum-context slider and the comparison selection. It
  shows the records of its inline catalog that pass all four filters. It
  hands the selected records to the comparison bar. The model is a class,
  `Console.ConsolePage`, whose methods are the page's handlers, over pure
  filter and selection functions (`Filter`, `Selection`).
- **The comparison bar** (`components/console/comparison-bar.tsx`). The
  bar is hidden when nothing is selected. Otherwise it shows one chip per
  record, a Clear All button and a compare control. The control is a link
  to `/console/compare?ids=…` once two records are selected, and a disabled
  button before that. The model is `ComparisonBar.Render` and
  `ComparisonBar.Fire`.
- **The comparison page** (`app/console/compare/page.tsx`). The page reads
  `ids`, splits it on commas and converts each token with `Number`. It
  keeps the records of its own four-record catalog whose id matches a
  token. It builds three radar rows (Safety, Governance, Performance), or
  shows an empty-state message when nothing matches. The model is
  `Compare`, with `Number` in `JsNumbers` and the string operations in
  `Text`.
- **The evaluation page** (`app/console/evaluate/page.tsx`). The page holds
  one `view` cell: selection, preset or upload. Only the handlers of the
  controls the current view renders can change it. The model is a class,
  `Evaluate.EvaluatePage`, over the pure transition function
  `Evaluate.Next`.

`Navigation` connects the two ends. The query string the bar renders splits
and converts back to the bar's own ids. As a result, a live link opens a
page comparing exactly the selected records that the comparison catalog
holds.

Modelling choices:
- Decimal scores (MMLU 88.7, HumanEval 90.2) are held as tenths (887, 902).
- The console's type strings (`'Closed API'`, `'Open-weight'`, `'Mixed'`)
  are the enum `ModelType`, shown through `TypeLabel`.
- A `Number` result is either `Int(v)` or `NotInteger`. `NotInteger`
  stands for NaN, an infinity or a value with a fraction; none of these
  equals an id under `includes`.

## Model

| member | source | states |
|---|---|---|
| ConsoleCatalog.AllModelsIds | app/console/page.tsx:11-72 | the console catalog holds the ids 1 to 6, in increasing order, each once |
| ConsoleCatalog.CatalogWithinOptions | components/console/filter-sidebar.tsx:37-73 | every record's company and type is one the sidebar offers as a checkbox |
| ConsoleCatalog.InIds | app/console/page.tsx:278 | an id is in a record list's ids exactly when some record carries it |
| Seqs.Filter | app/console/page.tsx:120-135 | `Array.prototype.filter`: an element is kept exactly when it is in the input and passes the predicate; never longer than the input |
| Seqs.FilterDropsOneValue | app/console/page.tsx:93 | a filter that rejects only `x` keeps the count of every other value and leaves no `x` |
| Seqs.FilterIsSubsequence | app/console/page.tsx:120 | filtering only deletes elements and keeps the order of the rest |
| Text.Lower | app/console/page.tsx:122-123 | `toLowerCase` keeps the length and lowers each ASCII capital; no capital remains |
| Text.LowerIdempotent | app/console/page.tsx:122-123 | lowering an already lowered string changes nothing |
| Text.Contains | app/console/page.tsx:122-123 | `includes` is true exactly when the needle occurs at some position |
| Text.ContainsEmpty | app/console/page.tsx:122-123 | the empty search text occurs in every string |
| Filter.FilteredModels | app/console/page.tsx:119-136 | a record is shown exactly when the search, company, type and context predicates all accept it; the shown records keep catalog order |
| Filter.EmptySearchMatchesAll | app/console/page.tsx:121-123 | an empty search box matches every record |
| Filter.SearchIgnoresCase | app/console/page.tsx:121-123 | searching with a text and with its lower-cased form match the same records |
| Filter.DefaultCriteriaShowsAll | app/console/page.tsx:76-79 | with the initial filter state the whole catalog is shown, in order |
| Filter.HigherThresholdShowsFewer | app/console/page.tsx:132 | raising the minimum context never brings back a hidden record |
| Filter.OpenAiOnly | app/console/page.tsx:125-127 | ticking only the OpenAI checkbox shows exactly GPT-4o |
| Selection.Remove | app/console/page.tsx:93 | unchecking removes every copy of x and keeps every other element with all its copies, in order |
| Selection.Toggle | app/console/page.tsx:90-116 | a toggle makes x present exactly when it was absent and leaves every other item alone |
| Selection.ToggleKeepsNoDup | app/console/page.tsx:90-116 | a toggle never puts an item into a list twice |
| Selection.ToggleTwiceAbsent | app/console/page.tsx:106-116 | checking and unchecking an item restores the exact list |
| Selection.ToggleTwicePresent | app/console/page.tsx:106-116 | unchecking and re-checking an item moves it to the end of the list |
| Selection.ToggleTwiceSameElements | app/console/page.tsx:106-116 | two toggles of the same item leave the set of selected items unchanged |
| Selection.SelectedModels | app/console/page.tsx:278 | the bar receives the catalog records whose id is selected, in catalog order |
| Selection.NothingSelected | app/console/page.tsx:82 | with no ids selected the bar receives nothing |
| Selection.SelectedIdsMembership | app/console/page.tsx:278 | the bar's ids are the selected ids that the catalog holds |
| Selection.SelectedIdsDistinct | app/console/page.tsx:278 | over a catalog with unique ids the bar never shows a record twice, and keeps catalog order |
| Selection.SelectedCount | app/console/page.tsx:278 | the bar shows as many records as distinct catalog ids are selected |
| Selection.SameIdSameRecord | app/console/page.tsx:11-72 | in a catalog with unique ids two records with the same id are the same record |
| Selection.RemovingSelectedModelDeselects | app/console/page.tsx:106-116 | over a catalog with unique ids, toggling a selected record's id deselects that record and keeps every other one |
| Selection.RemovingSelectedIdDeselects | app/console/page.tsx:106-116 | toggling a selected record's id drops exactly the records with that id from the bar |
| Console.ConsolePage.constructor | app/console/page.tsx:76-82 | the page starts with the catalog, an empty search, no ticked boxes, a zero threshold and no selection |
| Console.ConsolePage.InitialView | app/console/page.tsx:76-82 | in the initial state every record is shown and the bar is hidden |
| Console.ConsolePage.SetSearch | app/console/page.tsx:179 | typing replaces the search text and changes nothing else |
| Console.ConsolePage.ToggleCompany | app/console/page.tsx:90-96 | a company checkbox toggles that company; the other filters and the selection stay |
| Console.ConsolePage.ToggleType | app/console/page.tsx:99-103 | a type checkbox toggles that type; the other filters and the selection stay |
| Console.ConsolePage.SetMinContext | components/console/filter-sidebar.tsx:130-136 | the slider sets a threshold from 0 to 1000 in steps of 10 and changes nothing else |
| Console.ConsolePage.ToggleCompare | app/console/page.tsx:106-116 | a card's compare box flips that card's ticked state and keeps the selection free of duplicates |
| Console.ConsolePage.ResetFilters | app/console/page.tsx:237-249 | Reset Filters, offered only when no card matches, restores the initial filters, shows the whole catalog again and keeps the selection |
| Console.ConsolePage.ClearComparison | app/console/page.tsx:279 | Clear All empties the selection and hides the bar |
| Console.ConsolePage.HandleBarCallback | app/console/page.tsx:277-281 | the bar's `onRemove` is `toggleCompare` and its `onClear` empties the selection |
| Console.BarItems | app/console/page.tsx:277-281 | the bar receives one item per selected record, in order, with that record's id and name, so its ids are the records' ids |
| Console.BarReflectsSelection | app/console/page.tsx:277-281 | the bar's ids are distinct, and there is one item per distinct selected catalog id |
| Console.ChipRemovalDeselects | components/console/comparison-bar.tsx:33-46 | a chip's remove button reports its own record's id, and handling it drops exactly that record from the bar |
| Console.CompareGate | components/console/comparison-bar.tsx:22 | the compare link is live exactly when at least two distinct catalog ids are selected |
| ComparisonBar.Render | components/console/comparison-bar.tsx:16-75 | hidden exactly when nothing is selected; otherwise the count, one chip per record in order, and a link exactly when there are two or more records, or the disabled button with its title |
| ComparisonBar.Fire | components/console/comparison-bar.tsx:40-57 | only a rendered chip or Clear All fires a callback; a chip reports its own id; a click on a chip that is not rendered fires nothing |
| ComparisonBar.ChipRemovesItsOwnId | components/console/comparison-bar.tsx:40 | the k-th chip's remove button reports the k-th record's id |
| ComparisonBar.QueryParams | components/console/comparison-bar.tsx:19 | the query is empty exactly when nothing is selected, starts with the first id, is that id alone for one record, and holds only digits and commas |
| ComparisonBar.CanCompare | components/console/comparison-bar.tsx:22 | comparing is allowed exactly when the query names more than one id (holds a comma) |
| Text.Join | components/console/comparison-bar.tsx:19 | `join` of nothing is empty, of one piece is that piece, of more puts the separator right after the first piece; every character comes from a piece or is the separator |
| ComparisonBar.QuerySplits | components/console/comparison-bar.tsx:19 | splitting the query on commas gives one decimal token per record, in order |
| ComparisonBar.QueryRoundTrip | components/console/comparison-bar.tsx:19 | converting the split query with `Number` gives back the ids, in order |
| Text.NatToString | components/console/comparison-bar.tsx:19 | an id prints as digits without a leading zero |
| Text.DecimalValueOfNatToString | components/console/comparison-bar.tsx:19 | the printed id reads back as the id |
| Text.Split | app/console/compare/page.tsx:93 | `split(',')` yields at least one piece and no piece contains a comma |
| Text.SplitJoin | app/console/compare/page.tsx:93 | splitting a comma-join of comma-free pieces gives the pieces back |
| Text.SkipWhiteSpace | app/console/compare/page.tsx:93 | the index found is the first non-white-space one: everything before it is white space |
| Text.BackOverWhiteSpace | app/console/compare/page.tsx:93 | the end found leaves only white space after it and a non-white-space character before it |
| Text.Trim | app/console/compare/page.tsx:93 | `trim` gives a slice of the token with only white space outside it and none at either end of it; a token without white space is unchanged and an all-white-space token becomes empty |
| Text.TrimUnique | app/console/compare/page.tsx:93 | a slice with only white space outside it and non-white-space ends is the trimmed token |
| Text.PaddedWhiteSpaceOutside | app/console/compare/page.tsx:93 | padding a token with white space keeps only white space outside the shifted slice |
| Text.TrimIgnoresPadding | app/console/compare/page.tsx:93 | trimming a token padded with white space on both sides gives the token's own trim |
| JsNumbers.ToNumber | app/console/compare/page.tsx:93 | `Number` of an empty or all-white-space token is 0, of a run of decimal digits (a leading zero included) is its value, of a token that starts like no numeric literal, such as "abc", is NaN, and of a digit run followed by anything but more digits, a point, an exponent mark or (after a lone 0) a radix letter, such as "1abc" or "1 2", is NaN too |
| JsNumbers.DigitsThenJunkLiteral | app/console/compare/page.tsx:93 | a trimmed literal whose digit run is followed by a character that cannot continue a numeral converts to NaN |
| JsNumbers.DigitsThenJunkIsNaN | app/console/compare/page.tsx:93 | whatever the length of the digit run, a token with junk after it converts to NaN |
| JsNumbers.DigitsWithJunkIsNaN | app/console/compare/page.tsx:93 | `Number("1abc")` is NaN, not the 1 that `parseInt` would give |
| JsNumbers.ToNumberIgnoresPadding | app/console/compare/page.tsx:93 | white space around a token does not change its number |
| JsNumbers.NonNumericLiteral | app/console/compare/page.tsx:93 | a trimmed literal whose first character is not a digit, a sign or a point converts to NaN |
| JsNumbers.NumberOfNatToString | app/console/compare/page.tsx:93 | `Number(String(n)) == n` for every non-negative integer |
| Compare.FullModelDataFacts | app/console/compare/page.tsx:26-86 | the comparison catalog holds the ids 1 to 4 in order, under four distinct names |
| Compare.NumberedIdsInRange | app/console/compare/page.tsx:26-86 | in a catalog numbered 1, 2, 3, …, every id lies between 1 and its length |
| Compare.ParseIds | app/console/compare/page.tsx:90-93 | a missing or empty parameter gives no ids; otherwise one `Number` per comma-separated token |
| Compare.Resolve | app/console/compare/page.tsx:94 | a record is compared exactly when it is in the catalog and its id equals a parsed token; catalog order is kept |
| Compare.ResolveDependsOnlyOnIdSet | app/console/compare/page.tsx:94 | the order of the URL ids and repeated ids do not change the result |
| Compare.DuplicateIdCollapses | app/console/compare/page.tsx:94 | a repeated id shows its record once |
| Compare.UnmatchedTokensDropped | app/console/compare/page.tsx:94 | tokens that match no record are dropped without error |
| Compare.ConsoleOnlyIdsDropped | app/console/compare/page.tsx:85-94 | the ids 5 and 6, which only the console lists, are dropped |
| Compare.ZeroMatchesNothing | app/console/compare/page.tsx:26-94 | 0 is no id of the comparison catalog, so a 0 token changes nothing |
| Compare.EmptyTokenMatchesNothing | app/console/compare/page.tsx:93-94 | an empty token, as in `ids=1,,2`, converts to 0 and matches nothing |
| Compare.NotIntegersMatchNothing | app/console/compare/page.tsx:94 | numbers that are all NaN, infinite or fractional match no record of any catalog |
| Compare.NonNumericTokensShowEmptyState | app/console/compare/page.tsx:93-118 | a parameter whose every token starts like no numeral opens the empty state |
| Compare.LetterTokenShowsEmptyState | app/console/compare/page.tsx:93-118 | `ids=abc` opens the empty state |
| Compare.NaNTokensShowEmptyState | app/console/compare/page.tsx:93-118 | a parameter whose every token converts to NaN opens the empty state |
| Compare.DigitsWithJunkShowEmptyState | app/console/compare/page.tsx:93-118 | `ids=1abc` opens the empty state rather than comparing record 1 |
| Compare.ResolvedModels | app/console/compare/page.tsx:90-94 | the compared records are the catalog records whose id a token names, none when no token is parsed, in catalog order and with distinct names whatever the URL order |
| Compare.ScoresByName | app/console/compare/page.tsx:100-108 | the `reduce` produces one key per compared model name |
| Compare.ScoresByNameAt | app/console/compare/page.tsx:100-108 | with distinct names each model's name maps to that model's score |
| Compare.RadarData | app/console/compare/page.tsx:97-110 | three rows, Safety, Governance and Performance, each keyed by every compared model's name |
| Compare.RadarValues | app/console/compare/page.tsx:97-110 | each compared model's name maps to its safety, governance and performance score in the three rows |
| Compare.View | app/console/compare/page.tsx:112-130 | the empty-state message exactly when nothing resolves; otherwise the workbench with its Back to Index link to `/console`, the resolved records and their radar rows |
| Compare.MissingParameterShowsEmptyState | app/console/compare/page.tsx:90-93 | without `ids`, or with an empty `ids`, only the empty state shows |
| Navigation.ParsedQuery | components/console/comparison-bar.tsx:19 | the comparison page parses the bar's query back into the bar's ids, in order |
| Navigation.ResolveItems | app/console/compare/page.tsx:93-94 | resolving the bar's ids keeps exactly the catalog records whose id is on the bar |
| Navigation.QueryResolvesItems | components/console/comparison-bar.tsx:60-66 | following the bar's link compares exactly the comparison-catalog records whose id is on the bar |
| Navigation.NumberedResolve | app/console/compare/page.tsx:94 | against a catalog numbered from one, the resolved ids are the bar ids in range, increasing |
| Navigation.NumberedResolveBeyondRange | app/console/compare/page.tsx:94 | bar ids beyond such a catalog resolve to nothing |
| Navigation.NumberedDistinctResolve | app/console/compare/page.tsx:94 | against a catalog numbered from one, distinct bar ids in range resolve to one record per id, with the same ids, in increasing order |
| Navigation.DistinctKnownIdsRoundTrip | components/console/comparison-bar.tsx:19 | distinct bar ids from 1 to 4 come back as one record per id, with the same ids, in catalog order |
| Navigation.CompareIdsListedInConsole | app/console/compare/page.tsx:26-86 | every id of the comparison catalog is also a console id |
| Navigation.ConsoleLinkOpensSelection | app/console/page.tsx:277-281 | a live compare link opens a page comparing exactly the comparison records whose id the console selected |
| Navigation.IdsBeyondCompareCatalogOpenEmptyPage | app/console/compare/page.tsx:112-118 | a selection of ids above 4 opens the empty state |
| Navigation.ConsoleIdsBeyondFourOpenEmptyPage | app/console/compare/page.tsx:112-118 | for the console's own catalog, a selection of ids above 4 opens the empty state |
| Navigation.FiveAndSixListed | app/console/page.tsx:52-71 | the ids 5 and 6 are both console records |
| Navigation.ConsoleOnlySelectionLinkIsLive | components/console/comparison-bar.tsx:22 | selecting records 5 and 6 makes the compare link live |
| Navigation.ConsoleOnlySelectionOpensEmptyPage | app/console/compare/page.tsx:85-118 | selecting only records 5 and 6 gives a live link that opens the empty state |
| Evaluate.EvaluatePage.constructor | app/console/evaluate/page.tsx:17 | the page starts in the selection view |
| Evaluate.EvaluatePage.Press | app/console/evaluate/page.tsx:24-154 | a click leaves the view that the transition function gives |
| Evaluate.HeaderShowsOneControl | app/console/evaluate/page.tsx:24-46 | the header shows the Back button outside the selection view and the `/console` link inside it, never both |
| Evaluate.SelectionCardsOpenTheirViews | app/console/evaluate/page.tsx:75-82 | the first selection card opens the preset view, the second the upload view |
| Evaluate.BackReturnsToSelection | app/console/evaluate/page.tsx:26 | Back always returns to the selection view |
| Evaluate.Controls | app/console/evaluate/page.tsx:24-154 | the header shows exactly one of Back and the console link; the selection cards show only in the selection view, the file input only in the upload view, and one preset card per preset only in the preset view |
| Evaluate.Handler | app/console/evaluate/page.tsx:26-82 | each view is set by exactly one control (Back, the preset card, the upload card); the console link, preset cards and the file input set none |
| Evaluate.Next | app/console/evaluate/page.tsx:24-154 | a click changes the view only through a rendered control whose handler sets that view; the preset and upload views are left only by Back, to the selection view; only the selection view leads into the other two |
| Evaluate.NoDirectSwitch | app/console/evaluate/page.tsx:89-163 | no click goes straight from the preset view to the upload view or back |
| Evaluate.ViewsReachedOnlyThroughTheirCards | app/console/evaluate/page.tsx:75-82 | any session reaches the preset view only through the preset card, and the upload view only through the upload card |
| Evaluate.OneTitlePerView | app/console/evaluate/page.tsx:51-53 | of the three heading fragments exactly the current view's one shows |
| Evaluate.OneSubtitlePerView | app/console/evaluate/page.tsx:56-61 | of the three subtitle fragments exactly the current view's one shows |
| Evaluate.TitleIdentifiesView | app/console/evaluate/page.tsx:51-53 | two views show the same heading exactly when they are the same view |
| Evaluate.PresetsListThreeCriteria | app/console/evaluate/page.tsx:91-119 | four presets, each listing three criteria under the heading `Criteria (3)` |
| Evaluate.PresetViewRendersEveryPreset | app/console/evaluate/page.tsx:89-120 | the preset view renders one card per preset, and no other view renders any |

## Left out

- The nav, background, icons, Tailwind classes, animations, the stat cards, the bar chart and the table are not modelled. recharts' drawing of the radar rows, the pills and the model descriptions are not modelled either. None of them decide what is shown.
- `showMobileFilters` and its button are left out: the flag only switches the sidebar's CSS visibility.
- The "Sort by: MMLU Score" button has no handler in the source, so there is nothing to model.
- The "Showing n of m models" line (`filteredModels.length` of `allModels.length`) and the navbar's "Total Models" count (`filteredModels.length` alone) are not modelled.
- Model cards link to `/console/model/<id>`. The detail page is not part of this model.
- The router is outside the model. Next.js URL-decodes the `ids` parameter before `searchParams.get`. The model starts from the decoded value, as `Option<string>` with `None` for a missing parameter. The bar's query holds only digits and commas, so encoding changes nothing on that path.
- JsNumbers.ToNumber: decimal literals are evaluated exactly rather than rounded to the nearest double, so a token like `1.0000000000000001` is `NotInteger` here while JavaScript rounds it to 1. The `-0`/`+0` distinction is not kept; `includes` ignores it.
- ComparisonBar.QueryParams: ids are printed as decimal numerals. JavaScript prints a number from 1e21 up in exponent form, so "digits and commas only" holds for ids below that; every catalog id is far below it.
- Text.Lower: only ASCII capitals are lowered. This is weaker than JavaScript's Unicode `toLowerCase`, which also changes non-ASCII letters in a search text.
- The compare records' `description` strings are left out: they are display text that no logic reads.
- The empty comparison state is only the message "No models selected. Go back to console." with no link (app/console/compare/page.tsx:112-118), and `Compare.View` gives it none.
- The Back to Console, Back to Index and Compare links change the route. The model records only where they point (`Evaluate.Href`, `Compare.CompareView.backHref`, `ComparisonBar.CompareControl.href`); following a link is not modelled.
- Compare.RadarData: the source builds each row as one object with the model names spread after `subject`, so a model named "subject" would replace the axis label. No record of the comparison catalog has that name, and the row keeps the label and the scores in separate fields.
- Evaluate.EvaluatePage.Press: the file input's selection dialog and any upload are browser I/O with no handler in the source, so a click on the input leaves the view unchanged.
- Two records carry different names on the two pages: record 4 is "Llama 3.1 (405B)" on the console and "Llama 3.1" on the comparison page. The model keeps both catalogs as written.
