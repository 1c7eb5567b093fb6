# Local-government online mall directory: search, region tally, map tiers, click cooldown

This project models, in Dafny, the logic of a static directory site that
lists South Korean local-government online malls. Four pieces are modelled:

- **The home page's search** (`pages/index.tsx`). The query is trimmed. A
  blank query shows every mall. Otherwise the trimmed query is lower-cased,
  and a mall is kept, in list order, when its name, region, city (when
  present and non-empty) or one of its tags (when present), after lower-casing the field,
  contains the query.
  The "no results" message is also modelled. Modules `Text` and `Search`.
- **The build-time region tally** (`getStaticProps` in `pages/index.tsx`).
  One loop walks the whole mall list and adds one to the bucket of each
  mall's region. Malls with an empty region are skipped. Module `RegionCounts`.
- **The map's colouring** (`components/InteractiveMap.tsx`). A region's
  count defaults to 0 when the region has no entry. The count picks one of
  four fill tiers and one of two text colours. The count label is drawn
  only for a positive count. Module `RegionMap`.
- **The visit button's click cooldown** (`components/MallCard.tsx`). The
  browser store holds `clicked_mall_<id>` → time of the last reported click.
  A click is reported, and the store entry set to now, only when there is
  no entry or the entry is more than 5000 ms old. When the handler runs to
  its end, it then opens the mall's site, whether or not the click was
  reported. Module `ClickCooldown`, class `ClickStore`.

The mall record (`MallType`, `pages/index.tsx:12-25`) is `Malls.MallRecord`.
Its optional fields are `Option`s. `region` is a plain string. For the
region tally, the empty string stands for a missing or falsy region, which
the tally skips in the same way. The search assumes every record has a
region (see "## Left out").

Main results:

- The search result is a subsequence of the store and keeps store order.
- A mall is in the result exactly when it is in the store and matches.
- A blank query gives the whole store back.
- Searching the result again with the same query changes nothing.
- `CountByRegion` produces exactly the region tally: a key for each
  non-empty region some mall has, holding the number of such malls. The
  values add up to the number of malls with a region.
- Over that tally, a region shape is gray and unlabelled exactly when no
  mall lies in it.
- The fill tier is monotone in the count. The fallback tier is reached only
  by negative counts.
- Filtering keeps every copy of a repeated matching record, and drops every
  copy of one that does not match.
- In any run of clicks, consecutive reported clicks on one mall are more
  than 5000 ms apart.

## Model

| member | source | states |
|---|---|---|
| `Text.TrimStart` | pages/index.tsx:139 | the result is a suffix of the input; every dropped character is white space; the result is empty or starts with a non-space |
| `Text.TrimEnd` | pages/index.tsx:139 | the result is a prefix of the input; every dropped character is white space; the result is empty or ends with a non-space |
| `Text.Trim` | pages/index.tsx:139 | the trimmed query is a slice of the query and every character outside that slice is white space; it is empty exactly when every character is white space, and otherwise starts and ends with a character that is not white space |
| `Text.Lower` | pages/index.tsx:144 | lower-casing keeps the length, turns each ASCII capital into its own small letter (code point plus 32), leaves no ASCII capital and leaves every other character as it was |
| `Text.LowerKeepsUncased` | pages/index.tsx:147-148 | text without ASCII capitals (such as Hangul names and regions) is unchanged by lower-casing |
| `Text.LowerIdempotent` | pages/index.tsx:144 | lower-casing an already lower-cased query changes nothing |
| `Text.Includes` | pages/index.tsx:147-150 | a text includes only needles no longer than itself, and every text includes the empty needle |
| `Text.IncludesIffOccurs` | pages/index.tsx:147-150 | `includes` holds exactly when the needle occurs at some position of the text |
| `Text.MissingFirstChar` | pages/index.tsx:147-150 | a text that lacks the needle's first character does not include the needle |
| `Search.Query` | pages/index.tsx:144 | the search key has the length of the trimmed query, is empty exactly for an all-white-space query, and holds no ASCII capital |
| `Search.SomeTagIncludes` | pages/index.tsx:150 | the tag test holds exactly when some tag, lower-cased, contains the key |
| `Search.Matches` | pages/index.tsx:146-151 | every mall matches the empty key |
| `Search.MatchesIffSomeField` | pages/index.tsx:146-151 | a mall matches exactly when one of its searchable fields (name, region, city when present and non-empty, each tag) contains the key after lower-casing |
| `Search.Keep` | pages/index.tsx:145-152 | the filtered list is no longer than the store; a mall is in it exactly when it is in the store and matches the key; each matching record keeps all its copies and each other record has none |
| `Search.Filter` | pages/index.tsx:138-156 | a blank query gives the store unchanged; otherwise a mall is in the result exactly when it is in the store and matches the trimmed, lower-cased query, with every copy of a matching record kept and none of the others |
| `Search.KeepIsSubsequence` | pages/index.tsx:145-152 | the filtered list is a subsequence of the store, in store order |
| `Search.FilterIsSubsequence` | pages/index.tsx:138-156 | the search result is a subsequence of the store, in store order, for blank and non-blank queries |
| `Search.KeepIdempotent` | pages/index.tsx:145-152 | filtering the filtered list again with the same key gives the same list |
| `Search.FilterIdempotent` | pages/index.tsx:138-156 | searching the search result again with the same query gives the same list |
| `Search.BlankQueryShowsAll` | pages/index.tsx:139-141 | a query made only of white space shows the whole store, in the same order |
| `Search.AbsentFieldsNeverMatch` | pages/index.tsx:147-150 | with no city and no tags, a mall matches exactly when its name or region contains the key |
| `Search.TagMatchSuffices` | pages/index.tsx:150 | a mall one of whose tags contains the key matches, whatever its other fields hold |
| `Search.FilterEmptyIff` | pages/index.tsx:138-156 | the filtered list is empty exactly when the query is not blank and no mall matches the normalised query (a blank query empties it only for an empty store) |
| `Search.ShowNoResults` | pages/index.tsx:189-192 | the "no results" message shows exactly when the raw query is non-empty and either no mall matches the normalised query, or the query is blank and the store is empty |
| `Search.QueryOfPlainWord` | pages/index.tsx:144 | a query with no white space and no ASCII capitals is its own key, and a search with it is the plain filter |
| `Search.SearchFindsTag` | pages/index.tsx:145-152 | a market tagged 농산물 is found by the query 농산물 |
| `Search.FieldLacksKey` | pages/index.tsx:147-150 | a field without ASCII capitals that lacks the key's first character does not include the key after lower-casing |
| `Search.GangnamLacksBusan` | pages/index.tsx:146-151 | the example market (강남마켓, 서울특별시, tag 농산물) does not match 부산 |
| `Search.SearchMissesOtherRegion` | pages/index.tsx:145-152 | the query 부산 leaves that market out |
| `RegionCounts.CountOf` | pages/index.tsx:237-239 | the number of malls in a region is at most the number of malls |
| `RegionCounts.Located` | pages/index.tsx:238 | the number of malls with a region is at most the number of malls |
| `RegionCounts.TotalSplit` | pages/index.tsx:234-241 | the sum of a region dictionary's values splits off at any key |
| `RegionCounts.TotalBump` | pages/index.tsx:239 | adding one to a bucket (creating it at 1 when absent) adds one to the sum of the values |
| `RegionCounts.CountPositiveIff` | pages/index.tsx:237-239 | a region's count is positive exactly when some mall lies in it |
| `RegionCounts.TallyUnique` | pages/index.tsx:234-241 | two dictionaries that are both the tally of the same list are equal |
| `RegionCounts.CountByRegion` | pages/index.tsx:233-241 | the loop yields a key exactly for each non-empty region some mall has, holding the number of malls there, and the values sum to the number of malls with a region |
| `RegionCounts.TallyExample` | pages/index.tsx:234-241 | three malls in 서울특별시, one in 부산광역시 and one without a region give exactly {서울특별시: 3, 부산광역시: 1} |
| `RegionMap.FillBoundaries` | components/InteractiveMap.tsx:48-52 | count 0 is gray; 1..5 light blue; 6..15 medium blue; 16 and above dark blue |
| `RegionMap.FillTier` | components/InteractiveMap.tsx:48-54 | the tier is gray exactly for count 0 and the fallback exactly for negative counts, so no mall count reaches the fallback |
| `RegionMap.TextTier` | components/InteractiveMap.tsx:57-60 | for every non-negative count, the text is white exactly on the medium and dark blue fills, and dark otherwise |
| `RegionMap.FillMonotone` | components/InteractiveMap.tsx:49-52 | for non-negative counts, a larger count never gives a lighter tier |
| `RegionMap.CountFor` | components/InteractiveMap.tsx:81 | a region with no entry in the dictionary reads as count 0 |
| `RegionMap.ShowLabel` | components/InteractiveMap.tsx:112 | for a non-negative count the label is drawn exactly when the fill is not gray, and a drawn label never sits on the fallback fill |
| `RegionMap.ViewOf` | components/InteractiveMap.tsx:79-122 | a label is drawn only with a positive count; a region with no entry is gray, dark-text and unlabelled |
| `RegionMap.ShapeClasses` | components/InteractiveMap.tsx:48-60 | a region with no entry gets the gray fill class and the dark text class; the gray class is used exactly for count 0, the fallback class exactly for a negative count, and `fill-white` exactly for a count above 5 |
| `RegionMap.ViewOfTally` | components/InteractiveMap.tsx:80-121 | over the tally of a mall list, a region is gray exactly when no mall lies in it, is labelled exactly when some mall does, and its label and tier follow the number of malls there |
| `ClickCooldown.StorageKeyInjective` | components/MallCard.tsx:39 | two mall ids share a storage key exactly when they are equal |
| `ClickCooldown.StorageKey` | components/MallCard.tsx:39 | the key is the 13-character prefix `clicked_mall_` followed by the id, so the id can be read back from the key |
| `ClickCooldown.ShouldTrack` | components/MallCard.tsx:42-44 | a click with no stored time is reported; a click at most 5000 ms after the stored time (5000 included) is not; one more than 5000 ms after it is |
| `ClickCooldown.AfterClick` | components/MallCard.tsx:39-45 | after any click the mall's key is present and lies within the cooldown of now; every other key and its value is untouched |
| `ClickCooldown.TrackedClicksSpaced` | components/MallCard.tsx:37-45 | in any run of clicks, consecutive reported clicks on one mall are more than 5000 ms apart, and the first is more than 5000 ms after the time already stored |
| `ClickCooldown.ClickStore.constructor` | components/MallCard.tsx:40 | the store starts with the given entries |
| `ClickCooldown.ClickStore.HandleVisitClick` | components/MallCard.tsx:34-70 | the click is reported exactly when the key is absent or now minus the stored time exceeds 5000; the store then maps the key to now and is otherwise unchanged; the handler returns the mall's URL to open in both cases |

## Left out

- Reading and parsing the mall list file (`pages/index.tsx:221-231`). This is file I/O. On failure the code logs the error and goes on with an empty list. The model takes the list as a parameter.
- The `String(m.id)` coercions (`pages/index.tsx:134, 141, 154, 227`). Ids are already strings in the model.
- React state, effects and rendering. `Search.Filter` is the value the effect stores. The JSX list, the heading text and the card markup are not modelled.
- The region-shape geometry table (`pages/index.tsx:57-124`). It is static SVG data. The map model takes a region name per shape.
- The map's hover state and its logging-only region click handler (`components/InteractiveMap.tsx:36-44, 90-91`).
- Dictionary keys that collide with built-in object properties (a region called `constructor` or `toString`). In the code, the lookup with a default of 0 on a plain object would read an inherited value. The model's dictionary is a plain map.
- Counts that are not integers (NaN, fractions). Counts are `int` in the model.
- The `/api/track-click` request and its error logging, and `window.open` (`components/MallCard.tsx:47-69`). These are network and browser side effects. `HandleVisitClick` returns whether the click is reported and which address is opened.
- Date formatting with dayjs (`components/MallCard.tsx:73-75`). It is a foreign library.
- `SearchBar.tsx` (it only forwards its input) and `tailwind.config.js` (styling).
- Text.Lower: maps only the ASCII letters A-Z. JavaScript `toLowerCase` also maps other Unicode capitals. Hangul has no case, so the mall names and regions are unaffected.
- ClickCooldown.ClickStore.HandleVisitClick: the stored value is an integer. The code stores the time as text and parses it back as a decimal integer. Two cases are not modelled. An empty stored text counts as "no entry", so the click is reported. A non-empty text that does not parse gives NaN, the comparison is false, and the click is never reported.
- ClickCooldown.ClickStore.HandleVisitClick: assumes that the storage write and the report request both finish. If the storage write throws (storage full or disabled), the handler stops and opens nothing (`components/MallCard.tsx:45`). If the report request never settles, the opening is held back indefinitely (`components/MallCard.tsx:51, 69`). The model always returns the mall's URL.
- Records without a region. In the code, the search lower-cases the region of every mall whose name does not match. A missing region there raises a TypeError and the search effect fails (`pages/index.tsx:147-148`). `Search.Matches` treats the region as a string, so this failure is not modelled.
