# hungrilla crawler — a Dafny model

hungrilla's crawler walks the delivery listing of a food-ordering site for one
city, page by page. For every restaurant card on a listing page it builds a
summary restaurant (image, link, title, star rating, cuisine, delivery time),
then fetches the restaurant's detail page and reads its menu: categories,
menu items and, per item, the servings with their prices. Restaurants and
errors are sent on channels to an aggregator.

This project models the sequential, deterministic part of `crawler/crawler.go`:

- **Configuration** (`NewWithConfig`). The caller's settings fall back to the
  configured defaults. Async mode demands the three output channels. The
  listing URI is built here.
- **URLs.** The listing URI, the page URL of each page number and the detail
  URL of a restaurant.
- **Pages** (`Begin`). It pulls page numbers 0 to maxPages − 1, once each.
- **Card summary** (`outer`). One listing card becomes either a summary
  restaurant or exactly one error.
- **Menu assembly** (`inner`). Nested loops over categories, items and
  servings, with the price fallback rule.
  - An unparseable price skips only its serving.
  - A failed detail fetch returns the summary unchanged.
  - The code makes one meal value per category and appends it once per item,
    so each meal carries the servings of every earlier item of its category.
    The model keeps this behaviour as written.

The modules:

- `Wrappers`: Option and Result, plus generic lemmas about mapping, successes and failures, and concatenation.
- `GoStrings`: the `strings` and `strconv` behaviour the crawler relies on.
  - `unicode.IsSpace` and `strings.TrimSpace`.
  - `strings.Split` on one character, with `Join` as its inverse.
  - `strconv.ParseInt(s, 10, 64)`, which is `Atoi` on a 64-bit platform, with `%d` as its inverse.
- `Model`: the records of `store/model` and the error values.
- `Documents`: what the goquery selectors pick out of a listing card or a detail page.
- `Urls`: the three URL formats.
- `Extract`: specification functions for `outer` and `inner`, and the lemmas about them.
- `Crawler`: the configuration, the `Crawler` class, and the imperative methods proved against `Extract`.

Collaborators outside the model become parameters:

- the detail-page fetch is a function `string -> Option<DetailDoc>`;
- the duration parser `inhuman.Parse` is a function `string -> Option<int>`;
- the configured defaults (`conf.Conf`) are a `Settings` record.

Errors sent on the error channel by one worker come back as a list, in sending
order.

## Model

| member | source | states |
|---|---|---|
| Crawler.Resolve | crawler/crawler.go:87-103 | Field by field: max pages, base URL and city are the caller's value when non-zero or non-empty, and the default when zero or empty. A setting is zero only if both are. A full config ignores the defaults; an empty one yields them. |
| Crawler.Crawler.constructor | crawler/crawler.go:80-107 | These fields are constants, fixed when the crawler is made. `async` and the output channels come from the caller only in async mode, otherwise they are nil. The settings are `Resolve` of the config and defaults. The URI is the listing URI of the resolved base URL and city. |
| Crawler.NewWithConfig | crawler/crawler.go:71-110 | Panics with the channels message exactly when async is set and a channel is nil. Otherwise it returns a fresh crawler as the constructor describes. |
| Urls.ListingUri | crawler/crawler.go:105 | The URI is the base URL, `/`, the city, then `/delivery`, with each part at its position. |
| Urls.ListingUriInjective | crawler/crawler.go:105 | For cities without `/`, the URI determines both the base URL and the city. |
| Urls.PageUrl | crawler/crawler.go:127 | The page URL is the URI, `?&Search_PageNo=`, then exactly the `%d` numeral of the page number, which parses back to the page number. |
| Urls.PageUrlInjective | crawler/crawler.go:127 | Distinct page numbers give distinct page URLs. |
| Urls.DetailUrl | crawler/crawler.go:213 | The detail URL is the base URL followed directly by the restaurant's relative URL. |
| Crawler.CounterDelta | crawler/crawler.go:115 | `WaitGroup.Add(n)` changes the 32-bit counter by an int32 value, which is `n` itself when `n` fits in int32. |
| Crawler.CounterDeltaWraps | crawler/crawler.go:115 | That change is the one int32 value that differs from `n` by a multiple of 2^32. |
| Crawler.CounterWrapsAt32Bits | crawler/crawler.go:115 | 2^31 pages make the counter negative, and -2^32 pages leave it at zero. |
| Crawler.Crawler.Begin | crawler/crawler.go:112-124 | It panics with the negative-counter message exactly when `Add(maxPages)` leaves the 32-bit counter negative; for a maxPages within int32 that is exactly when it is negative. Otherwise the page URLs are those of pages 0 to maxPages - 1 (none when maxPages is negative): the i-th is page i's URL, and all are pairwise distinct. |
| Crawler.PageUrlsDiffer | crawler/crawler.go:127 | Two different page numbers in the int64 range give different page URLs. |
| Crawler.PageUrls | crawler/crawler.go:117-119 | The page loop yields exactly n URLs, the i-th for page i, pairwise distinct. |
| Extract.CardSummary | crawler/crawler.go:166-199 | It succeeds iff the rating (when present) and the delivery time parse. A rating failure is reported before a duration failure, each with its text. A missing image or link gives "" and a missing rating gives 0, with no error. Otherwise fields are copied or parsed. The menu starts empty. |
| Crawler.Crawler.Outer | crawler/crawler.go:162-210 | A card that fails gives no restaurant and exactly its one error. Otherwise the summary with the detail page's menu is forwarded, with inner's errors, even when the detail fetch fails. |
| Extract.Detail | crawler/crawler.go:212-281 | It fetches base URL + relative URL. On fetch failure the restaurant is unchanged with exactly one error. Otherwise the menu gains exactly `MenuOf` of the page's categories, one meal per menu item, and the errors are `MenuErrors` of them. No summary field changes. |
| Crawler.Crawler.Inner | crawler/crawler.go:212-281 | The restaurant and errors are exactly `Extract.Detail`. |
| Crawler.ReadMenu | crawler/crawler.go:223-278 | The category loop appends `MenuOf` of the categories and sends `MenuErrors`. |
| Crawler.ReadCategory | crawler/crawler.go:224-277 | One category's loop appends exactly that category's meals and sends its items' price errors. |
| Crawler.ReadServings | crawler/crawler.go:246-274 | One item's loop appends the servings whose price parses, in order, and sends one error per price that does not. |
| Extract.PriceText | crawler/crawler.go:249-255 | The hidden `ItemPrice` value when present. Otherwise piece 1 of the trimmed visible text split on single spaces, or "" when there is no such piece. That piece never holds a space, and a one-word text gives "". |
| Extract.VisiblePriceSecondWord | crawler/crawler.go:249-255 | A trimmed visible text of two or more space-free words joined by single spaces gives the second word, whatever follows. |
| Extract.VisiblePriceWithTrailingWord | crawler/crawler.go:251-254 | "Rs. 250 each" gives "250". |
| Extract.VisiblePriceWithDoubleSpace | crawler/crawler.go:251-254 | "Rs.  250", with two spaces, gives "". |
| Extract.VisiblePriceToken | crawler/crawler.go:251-254 | A visible text "currency amount" yields the amount. |
| Extract.VisiblePriceRoundTrip | crawler/crawler.go:247-264 | A visible price "currency" + space + `%d` of any int64 amount, negative ones included, gives a serving with the trimmed name and that price. |
| Extract.HiddenPriceServing | crawler/crawler.go:247-264 | A hidden price printed with `%d` gives that price, whatever the visible text says. |
| Extract.ServingResult | crawler/crawler.go:246-264 | A sub-item fails exactly when its price string does not parse, with a price error for that string. Otherwise its serving is the trimmed name with the parsed price. |
| Extract.ServingsOfSnoc | crawler/crawler.go:257-264 | Reading one more sub-item appends either its serving or its price error. |
| Extract.ServingsOrErrors | crawler/crawler.go:257-264 | Every sub-item yields exactly one serving or one error. |
| Extract.SingleSubItem | crawler/crawler.go:246-264 | A single sub-item yields its serving, or none when its price fails. |
| Extract.BadPriceSkipsOnlyItsServing | crawler/crawler.go:257-262 | An unparseable price removes only that serving and adds exactly one error, for that price string. The servings before and after it are kept, in order. |
| Extract.CleanPricesKeepEveryServing | crawler/crawler.go:246-264 | When every price parses, all servings are kept, one per sub-item, in order, with no errors. |
| Extract.MealAt | crawler/crawler.go:223-276 | The meal appended for the k-th item has the category heading, the item's trimmed name and its untrimmed description. Its servings are the running servings of items 0 through k (`ServingsAccumulate` splits them into the previous meal's and the item's own). |
| Extract.ServingsUpToSnoc | crawler/crawler.go:246-264 | Reading one more item appends that item's servings to the category's running servings. |
| Extract.ServingsAccumulate | crawler/crawler.go:224-276 | The first meal of a category holds the first item's servings. Each later meal holds the previous meal's servings plus its own item's. |
| Extract.EarlierMealServingsArePrefix | crawler/crawler.go:224-276 | Within a category, an earlier meal's servings are a prefix of a later meal's. |
| Extract.SecondMealRepeatsFirstServing | crawler/crawler.go:224-276 | With two items of one serving each, the second meal lists both servings. |
| Extract.ServingsAppend | crawler/crawler.go:246-264 | The servings and price errors of two runs of sub-items in a row are those of the first run followed by those of the second. |
| Extract.ItemErrorsInDocumentOrder | crawler/crawler.go:229-277 | The errors of a run of items are the price errors of all their sub-items, in document order. |
| Extract.MenuErrorsInDocumentOrder | crawler/crawler.go:223-278 | The errors of a detail page are the price errors of all its sub-items, in document order: one per unparseable price, for that price string. |
| Extract.MenuErrorPerFailedServing | crawler/crawler.go:223-278 | Across a detail page, errors plus servings number the sub-items. |
| Extract.CleanMenuSendsNoErrors | crawler/crawler.go:223-278 | A detail page whose prices all parse sends no error. |
| Extract.CategoryMealsSnoc | crawler/crawler.go:229-277 | Reading one more item of a category appends its meal. |
| Extract.ItemErrorsSnoc | crawler/crawler.go:229-277 | Reading one more item appends its price errors. |
| Extract.MenuSnoc | crawler/crawler.go:223-278 | Reading one more category appends its meals and its errors. |
| Extract.OneMealPerItem | crawler/crawler.go:229-277 | The menu has exactly one meal per menu item. |
| Extract.MenuIndex | crawler/crawler.go:223-278 | A category's meals sit in the menu right after those of the earlier categories, at the offset of their item count. |
| Extract.MealPosition | crawler/crawler.go:223-278 | Item k of category i becomes the meal right after the earlier categories' meals, with that category's heading, the item's trimmed name and its description. |
| GoStrings.TrimSpace | crawler/crawler.go:232-251 | The result is no longer than the input and neither starts nor ends with white space. |
| GoStrings.TrimSpaceIsSlice | crawler/crawler.go:232-251 | The trimmed text is the slice of the input that starts right after the leading white space. |
| GoStrings.TrimSpaceDropsOnlySpaces | crawler/crawler.go:232-251 | Everything after the kept slice is white space. |
| GoStrings.TrimSpaceOfTrimmed | crawler/crawler.go:232-251 | Text that neither starts nor ends with white space is unchanged. |
| GoStrings.Split | crawler/crawler.go:251 | There is always at least one piece. |
| GoStrings.SplitJoinsBack | crawler/crawler.go:251 | No piece holds the separator, and joining the pieces gives the text back. |
| GoStrings.SplitJoin | crawler/crawler.go:251 | Splitting a join of separator-free pieces gives the pieces back. |
| GoStrings.JoinInjective | crawler/crawler.go:251 | Separator-free piece lists with equal joins are equal. |
| GoStrings.ParseInt64 | crawler/crawler.go:181 | A parsed value is within the int64 range. |
| GoStrings.ParseSignedNumeral | crawler/crawler.go:181 | Every optional sign followed by a non-empty digit run is accepted with its signed value when that is an int64, and rejected otherwise. |
| GoStrings.ParseLeadingZeroAndPlus | crawler/crawler.go:257 | "0250" parses to 250 and "+5" to 5. |
| GoStrings.DecimalValueDefined | crawler/crawler.go:181 | A numeral has a value exactly when all its characters are ASCII digits. |
| GoStrings.ParsedNumeralShape | crawler/crawler.go:257 | Accepted text is a non-empty run of digits after at most one sign, with no white space. The value is the signed value of those digits. A negative value has a leading minus. |
| GoStrings.FormatInt | crawler/crawler.go:127 | `%d` prints a non-empty string that starts with a minus sign exactly for negative numbers. |
| GoStrings.FormatIntDigits | crawler/crawler.go:127 | After the optional minus sign come the canonical digits of the magnitude, with no leading zero unless the number is 0, and they read back as the magnitude. |
| GoStrings.FormatNat | crawler/crawler.go:127 | The numeral is non-empty, all digits, has no leading zero unless it is "0", and reads back as the number. |
| GoStrings.ParseFormatInt | crawler/crawler.go:127 | Parsing `%d` of any int64 gives the number back. |
| GoStrings.FormatIntInjective | crawler/crawler.go:127 | Distinct int64 values print differently. |

## Left out

**Concurrency and I/O**

- Goroutines, WaitGroups, channels and the per-page aggregator (crawler/crawler.go:112-160) are not modelled. Their defects are not captured either:
  - `wgOuter.Done` is deferred only after a successful page fetch, so a failed page fetch makes `Begin` block forever;
  - every page starts its own aggregator, which never ends;
  - `Begin` can return before the aggregators have appended everything.
- Crawler.Crawler.Begin returns the page URLs it would pull rather than pulling them.
  - Outside int32 without a panic, the counter `CounterDelta(maxPages)` and the number of pulls can differ, and what follows is not modelled.
    - A negative maxPages with a positive counter pulls nothing, so `Wait` blocks forever.
    - A maxPages of 2^32 or more lets `Wait` return once the counter reaches 0, and the next `Done` panics in a page goroutine.
  - Which page fetches fail, and the order in which pages, cards and errors reach the aggregator, are not modelled.
  - The `restaurants` and `errors` fields that the aggregator fills are therefore left out.
- `pull`'s listing-page fetch and its fan-out of one `outer` per card (crawler/crawler.go:126-143) are network I/O and concurrency.
  - `Outer` is the model of one card's work.
- The detail-page fetch (`goquery.NewDocument`) is a function parameter, and every failure is a single `DetailFetchError`.
- goquery's selector evaluation and the `html.TextNode` filter are not modelled. Their results are the fields of the `Documents` records, already reduced to strings and optional attributes.
- `inhuman.Parse` and `time.Duration` are not modelled; the duration parser is a function parameter returning nanoseconds or nothing.

**Other parts of the repository**

- `New()` (crawler/crawler.go:58-69) only copies the configured defaults, so `Resolve` on an empty config covers it.
- conf/conf.go is not part of this model: its environment variables, YAML loading and logger setup are I/O and global state. The defaults are a `Settings` record.
- Logging and the timing in `Begin` are side effects with no behaviour.
- The internal channels `chRest` and `chErr`, made at crawler/crawler.go:106-107, are not modelled.
- Reviews are never filled in by the crawler, so `reviews` stays empty.

**Modelling choices**

- Errors are a `CrawlError` value that names the failing step and the text or URL involved. The Go program sends the library's `error` values, whose message text is not modelled.
- Go's `int` is taken as 64 bits: `Int64` for page counts, and `strconv.Atoi` equal to `ParseInt(s, 10, 64)`.
- A panic is a `Failure` carrying the panic message. Nothing after it runs.
- Strings are sequences of characters, while Go's strings are UTF-8 bytes. Invalid UTF-8 is therefore not modelled: `strings.TrimSpace` reads a bad byte as U+FFFD, which is not white space, and the model has no way to write such a byte.
