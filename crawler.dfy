/** The crawler itself: its configuration, the pages `Begin` pulls, and the
    per-card work of `outer` and `inner`, with every error that one worker
    sends on the error channel collected, in sending order, into a list. */
module Crawler {
  import opened Wrappers
  import opened GoStrings
  import opened Model
  import opened Documents
  import opened Urls
  import opened Extract

  /** A Go channel; a nil channel is `None` wherever a channel is optional. */
  datatype Chan = Chan(id: nat)

  /** crawler.Config, as a caller fills it in. */
  datatype Config = Config(
    maxPages: Int64,
    baseUrl: string,
    city: string,
    async: bool,
    outItem: Option<Chan>,
    outErr: Option<Chan>,
    outDone: Option<Chan>)

  /** The settings read from the environment's configuration file (conf.Conf). */
  datatype Settings = Settings(baseUrl: string, city: string, maxPages: Int64)

  const ChannelsPanic: string := "channels should be provided when running in async mode"
  const NegativeCounterPanic: string := "sync: negative WaitGroup counter"

  /** Whether a number fits Go's int32. */
  predicate InInt32(n: int)
  {
    -0x8000_0000 <= n < 0x8000_0000
  }

  /** The change `sync.WaitGroup.Add(n)` makes to a fresh counter. The counter
      is kept in 32 bits, so only the low 32 bits of `n` count, read as a
      signed int32 (see `CounterDeltaWraps`). */
  function CounterDelta(n: int): (d: int)
    ensures InInt32(d)
    ensures InInt32(n) ==> d == n
  {
    var low := n % 0x1_0000_0000;
    if low < 0x8000_0000 then low else low - 0x1_0000_0000
  }

  /** The counter's change is the one int32 value that differs from `n` by a
      multiple of 2^32. */
  lemma CounterDeltaWraps(n: int, d: int)
    requires InInt32(d)
    ensures d == CounterDelta(n) <==> (n - d) % 0x1_0000_0000 == 0
  {
    var q := n / 0x1_0000_0000;
    assert n == q * 0x1_0000_0000 + n % 0x1_0000_0000;
    if (n - d) % 0x1_0000_0000 == 0 {
      var p := (n - d) / 0x1_0000_0000;
      assert n - d == p * 0x1_0000_0000;
      assert n == p * 0x1_0000_0000 + d;
    }
  }

  /** 2^31 pages panic although the count is positive, and -2^32 pages do
      not panic although it is negative. */
  lemma CounterWrapsAt32Bits()
    ensures CounterDelta(0x8000_0000) < 0
    ensures CounterDelta(-0x1_0000_0000) == 0
  {
  }

  /** Two different page numbers in the int64 range give different URLs. */
  lemma PageUrlsDiffer(uri: string, k: nat, i: nat)
    requires k < i <= MaxInt64
    ensures PageUrl(uri, k) != PageUrl(uri, i)
  {
    if PageUrl(uri, k) == PageUrl(uri, i) {
      PageUrlInjective(uri, k, i);
    }
  }

  /** The loop of Begin: the URLs of pages 0 to n - 1, in order, pairwise
      distinct. The loop body does not run when the page count is negative,
      so a caller passes 0 then. */
  method PageUrls(uri: string, n: nat) returns (urls: seq<string>)
    requires n <= MaxInt64
    ensures |urls| == n
    ensures forall i :: 0 <= i < n ==> urls[i] == PageUrl(uri, i)
    ensures forall i, j :: 0 <= i < j < n ==> urls[i] != urls[j]
  {
    urls := [];
    var i := 0;
    while i < n
      invariant 0 <= i <= n
      invariant |urls| == i
      invariant forall k :: 0 <= k < i ==> urls[k] == PageUrl(uri, k)
    {
      urls := urls + [PageUrl(uri, i)];
      i := i + 1;
    }
    forall k, l | 0 <= k < l < n
      ensures urls[k] != urls[l]
    {
      PageUrlsDiffer(uri, k, l);
    }
  }

  /** Async mode needs all three output channels. */
  predicate MissingChannel(c: Config)
  {
    c.outItem.None? || c.outDone.None? || c.outErr.None?
  }

  /** The settings a crawler runs with: each of the caller's values when it is
      not Go's zero value, the configured default otherwise, field by field.
      A setting is left at zero only when both the caller and the defaults
      leave it there; a caller that gives every setting makes the defaults
      irrelevant, and one that gives none runs with the defaults. */
  function Resolve(c: Config, defaults: Settings): (s: Settings)
    ensures c.maxPages != 0 ==> s.maxPages == c.maxPages
    ensures c.maxPages == 0 ==> s.maxPages == defaults.maxPages
    ensures c.baseUrl != "" ==> s.baseUrl == c.baseUrl
    ensures c.baseUrl == "" ==> s.baseUrl == defaults.baseUrl
    ensures c.city != "" ==> s.city == c.city
    ensures c.city == "" ==> s.city == defaults.city
    ensures s.maxPages == 0 <==> c.maxPages == 0 && defaults.maxPages == 0
    ensures s.baseUrl == "" <==> c.baseUrl == "" && defaults.baseUrl == ""
    ensures s.city == "" <==> c.city == "" && defaults.city == ""
    ensures c.maxPages == 0 && c.baseUrl == "" && c.city == "" ==> s == defaults
    ensures c.maxPages != 0 && c.baseUrl != "" && c.city != ""
            ==> s == Settings(c.baseUrl, c.city, c.maxPages)
  {
    Settings(
      if c.baseUrl != "" then c.baseUrl else defaults.baseUrl,
      if c.city != "" then c.city else defaults.city,
      if c.maxPages != 0 then c.maxPages else defaults.maxPages)
  }

  /** A crawler's settings, listing URI and output channels are fixed when it is made. */
  class Crawler {
    const maxPages: Int64
    const baseUrl: string
    const city: string
    const uri: string
    const async: bool
    const outItem: Option<Chan>
    const outErr: Option<Chan>
    const outDone: Option<Chan>

    /** The settings this crawler runs with. */
    function Current(): Settings
    {
      Settings(baseUrl, city, maxPages)
    }

    /** NewWithConfig once its channel check has passed: async mode and the
        output channels are taken from the caller only in async mode, every
        setting falls back to its default, and the listing URI is built from
        the resolved base URL and city. */
    constructor (c: Config, defaults: Settings)
      requires c.async ==> !MissingChannel(c)
      ensures async == c.async
      ensures c.async ==> outItem == c.outItem && outErr == c.outErr && outDone == c.outDone
      ensures !c.async ==> outItem.None? && outErr.None? && outDone.None?
      ensures Current() == Resolve(c, defaults)
      ensures uri == ListingUri(baseUrl, city)
    {
      if c.async {
        async := c.async;
        outItem, outDone, outErr := c.outItem, c.outDone, c.outErr;
      } else {
        async := false;
        outItem, outDone, outErr := None, None, None;
      }
      var m: Int64, b: string, t: string;
      if c.maxPages != 0 {
        m := c.maxPages;
      } else {
        m := defaults.maxPages;
      }
      if c.baseUrl != "" {
        b := c.baseUrl;
      } else {
        b := defaults.baseUrl;
      }
      if c.city != "" {
        t := c.city;
      } else {
        t := defaults.city;
      }
      maxPages, baseUrl, city := m, b, t;
      uri := ListingUri(b, t);
    }

    /** The page URLs pulled by Begin, one per page number from 0 up to
        maxPages - 1, in that order; each carries its page number, so no page
        is pulled twice. `wgOuter.Add(maxPages)` panics before any page is
        pulled when the 32-bit counter it leaves is negative; for a maxPages
        within the int32 range that is exactly when maxPages is negative. */
    method Begin() returns (r: Result<seq<string>, string>)
      ensures r.Failure? <==> CounterDelta(maxPages) < 0
      ensures InInt32(maxPages) ==> (r.Failure? <==> maxPages < 0)
      ensures r.Failure? ==> r.error == NegativeCounterPanic
      ensures r.Success? ==> |r.value| == if maxPages < 0 then 0 else maxPages
      ensures r.Success? ==> forall i :: 0 <= i < |r.value| ==> r.value[i] == PageUrl(uri, i)
      ensures r.Success? ==> forall i, j :: 0 <= i < j < |r.value| ==> r.value[i] != r.value[j]
    {
      var delta := CounterDelta(maxPages);
      if delta < 0 {
        return Failure(NegativeCounterPanic);
      }
      var urls := PageUrls(uri, if maxPages < 0 then 0 else maxPages);
      return Success(urls);
    }

    /** outer: the summary of one listing card; when it is built, the detail
        page's menu is added and the restaurant is forwarded, even when the
        detail fetch fails. When the rating or the delivery time does not
        parse, exactly that one error is sent and nothing is forwarded. */
    method Outer(card: Card, parseDuration: string -> Option<int>, fetch: string -> Option<DetailDoc>)
      returns (item: Option<Restaurant>, errs: seq<CrawlError>)
      ensures CardSummary(card, parseDuration).Failure?
              ==> item.None? && errs == [CardSummary(card, parseDuration).error]
      ensures CardSummary(card, parseDuration).Success?
              ==> var d := Detail(baseUrl, CardSummary(card, parseDuration).value, fetch);
                  item == Some(d.0) && errs == d.1
    {
      var r := EmptyRestaurant;
      if card.imgSrc.Some? {
        r := r.(imgUrl := card.imgSrc.value);
      }
      if card.href.Some? {
        r := r.(url := card.href.value);
      }
      r := r.(title := card.titleText);
      if card.dataRating.Some? {
        var rating := card.dataRating.value;
        match ParseInt64(rating) {
          case None =>
            return None, [RatingParseError(rating)];
          case Some(n) =>
            r := r.(rating := n);
        }
      }
      r := r.(cuisine := card.addressText);
      match parseDuration(card.deliveryText) {
        case None =>
          return None, [DurationParseError(card.deliveryText)];
        case Some(d) =>
          r := r.(deliveryTime := d);
      }
      var res;
      res, errs := Inner(r, fetch);
      item := Some(res);
    }

    /** inner: fetches the restaurant's detail page and reads its categories
        in document order, appending their meals to the menu and sending their
        price errors; when the fetch fails the restaurant comes back as it was,
        with the fetch error. */
    method Inner(r: Restaurant, fetch: string -> Option<DetailDoc>)
      returns (res: Restaurant, errs: seq<CrawlError>)
      ensures (res, errs) == Detail(baseUrl, r, fetch)
    {
      var url := DetailUrl(baseUrl, r.url);
      var doc: DetailDoc;
      match fetch(url) {
        case None =>
          return r, [DetailFetchError(url)];
        case Some(d) =>
          doc := d;
      }
      var menu;
      menu, errs := ReadMenu(r.menu, doc.categories);
      res := r.(menu := menu);
    }
  }

  /** The `.tab-pane.mspan7-menu` loop of `inner`: the categories are read in
      document order, each appending its meals to the menu and sending its
      price errors. */
  method ReadMenu(menu: seq<Meal>, cats: seq<CategoryNode>) returns (menu': seq<Meal>, errs: seq<CrawlError>)
    ensures menu' == menu + MenuOf(cats)
    ensures errs == MenuErrors(cats)
  {
    menu', errs := menu, [];
    var i := 0;
    while i < |cats|
      invariant 0 <= i <= |cats|
      invariant menu' == menu + MenuOf(cats[..i])
      invariant errs == MenuErrors(cats[..i])
    {
      var catMenu, catErrs := ReadCategory(menu', cats[i]);
      assert catMenu == menu + MenuOf(cats[..i + 1]) && errs + catErrs == MenuErrors(cats[..i + 1]) by {
        MenuSnoc(cats, i);
      }
      menu', errs := catMenu, errs + catErrs;
      i := i + 1;
    }
    assert cats[..i] == cats;
  }

  /** The callback `inner` runs for one `.tab-pane.mspan7-menu`: a single meal
      value is made for the category and, for each item in document order, it
      takes the item's name and description and its servings are added to the
      ones already there; then it is appended to the menu. */
  method ReadCategory(menu: seq<Meal>, cat: CategoryNode) returns (menu': seq<Meal>, errs: seq<CrawlError>)
    ensures menu' == menu + CategoryMeals(cat)
    ensures errs == ItemErrors(cat.items)
  {
    var meal := Meal(cat.heading, "", "", []);
    menu', errs := menu, [];
    var j := 0;
    while j < |cat.items|
      invariant 0 <= j <= |cat.items|
      invariant meal.category == cat.heading
      invariant meal.servings == ServingsUpTo(cat.items, j)
      invariant menu' == menu + CategoryMeals(cat)[..j]
      invariant errs == ItemErrors(cat.items[..j])
    {
      var it := cat.items[j];
      meal := meal.(name := TrimSpace(it.directText), description := it.smallText);
      var itemErrs;
      meal, itemErrs := ReadServings(meal, it.subItems);
      assert meal == MealAt(cat, j) by {
        ServingsUpToSnoc(cat.items, j);
      }
      assert menu' + [meal] == menu + CategoryMeals(cat)[..j + 1] by {
        CategoryMealsSnoc(cat, j);
      }
      assert errs + itemErrs == ItemErrors(cat.items[..j + 1]) by {
        ItemErrorsSnoc(cat.items, j);
      }
      menu', errs := menu' + [meal], errs + itemErrs;
      j := j + 1;
    }
    assert cat.items[..j] == cat.items;
    assert CategoryMeals(cat)[..j] == CategoryMeals(cat);
  }

  /** The callback `inner` runs for each `.menu-subitem` of one item: the
      serving with the trimmed name and the parsed price is appended to the
      meal, or, when the price string does not parse, the error is sent and
      the serving skipped. */
  method ReadServings(meal: Meal, subs: seq<SubItemNode>) returns (meal': Meal, errs: seq<CrawlError>)
    ensures meal' == meal.(servings := meal.servings + ServingsOf(subs))
    ensures errs == PriceErrors(subs)
  {
    meal', errs := meal, [];
    var k := 0;
    while k < |subs|
      invariant 0 <= k <= |subs|
      invariant meal' == meal.(servings := meal.servings + ServingsOf(subs[..k]))
      invariant errs == PriceErrors(subs[..k])
    {
      var s := subs[k];
      var kind := TrimSpace(s.nameText);
      var p := PriceText(s);
      ServingsOfSnoc(subs, k);
      match ParseInt64(p) {
        case None =>
          errs := errs + [PriceParseError(p)];
        case Some(price) =>
          meal' := meal'.(servings := meal'.servings + [Serving(kind, price)]);
      }
      k := k + 1;
    }
    assert subs[..k] == subs;
  }

  /** NewWithConfig: in async mode a missing output channel panics with the
      message above and no crawler is made; otherwise the new crawler is the
      one the constructor describes. */
  method NewWithConfig(c: Config, defaults: Settings) returns (r: Result<Crawler, string>)
    ensures r.Failure? <==> c.async && MissingChannel(c)
    ensures r.Failure? ==> r.error == ChannelsPanic
    ensures r.Success? ==> fresh(r.value)
    ensures r.Success? ==> r.value.async == c.async && r.value.Current() == Resolve(c, defaults)
    ensures r.Success? ==> r.value.uri == ListingUri(r.value.baseUrl, r.value.city)
    ensures r.Success? && c.async
            ==> r.value.outItem == c.outItem && r.value.outErr == c.outErr && r.value.outDone == c.outDone
    ensures r.Success? && !c.async
            ==> r.value.outItem.None? && r.value.outErr.None? && r.value.outDone.None?
  {
    if c.async && MissingChannel(c) {
      return Failure(ChannelsPanic);
    }
    var crw := new Crawler(c, defaults);
    return Success(crw);
  }
}
