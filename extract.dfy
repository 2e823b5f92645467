/** What the crawler extracts from a listing card (the summary) and from a
    restaurant's detail page (the menu), stated as functions of the selections
    the crawler reads. The crawler's `outer` and `inner` methods are proved to
    compute exactly these. */
module Extract {
  import opened Wrappers
  import opened GoStrings
  import opened Model
  import opened Documents
  import opened Urls

  // ---------------------------------------------------------------------------
  // The summary of one listing card

  /** The card carries a `data-rating` attribute and strconv.ParseInt rejects it. */
  predicate RatingFails(card: Card)
  {
    card.dataRating.Some? && ParseInt64(card.dataRating.value).None?
  }

  /** The summary restaurant built from one card, or the one error that aborts
      the card. Only the two parses can fail: a missing image, link or rating
      attribute leaves its field at the zero value and is not an error. The
      rating is parsed only when the attribute exists and is checked before the
      delivery time, whose parser is the `parseDuration` argument. */
  function CardSummary(card: Card, parseDuration: string -> Option<int>): (r: Result<Restaurant, CrawlError>)
    ensures r.Success? <==> !RatingFails(card) && parseDuration(card.deliveryText).Some?
    ensures RatingFails(card) ==> r == Failure(RatingParseError(card.dataRating.value))
    ensures !RatingFails(card) && r.Failure? ==> r.error == DurationParseError(card.deliveryText)
    ensures r.Success? ==> r.value.menu == [] && r.value.reviews == []
    ensures r.Success? ==> r.value.title == card.titleText && r.value.cuisine == card.addressText
    ensures r.Success? ==> Some(r.value.deliveryTime) == parseDuration(card.deliveryText)
    ensures r.Success? && card.imgSrc.None? ==> r.value.imgUrl == ""
    ensures r.Success? && card.imgSrc.Some? ==> r.value.imgUrl == card.imgSrc.value
    ensures r.Success? && card.href.None? ==> r.value.url == ""
    ensures r.Success? && card.href.Some? ==> r.value.url == card.href.value
    ensures r.Success? && card.dataRating.None? ==> r.value.rating == 0
    ensures r.Success? && card.dataRating.Some? ==> ParseInt64(card.dataRating.value) == Some(r.value.rating)
  {
    var summary := EmptyRestaurant.(
      imgUrl := OrEmpty(card.imgSrc),
      url := OrEmpty(card.href),
      title := card.titleText);
    if RatingFails(card) then Failure(RatingParseError(card.dataRating.value))
    else
      var rating := if card.dataRating.Some? then ParseInt64(card.dataRating.value).value else 0;
      var summary := summary.(rating := rating, cuisine := card.addressText);
      match parseDuration(card.deliveryText)
      case None => Failure(DurationParseError(card.deliveryText))
      case Some(d) => Success(summary.(deliveryTime := d))
  }

  // ---------------------------------------------------------------------------
  // Prices and servings

  /** The price string of a serving: the hidden `ItemPrice` value when there is
      one, otherwise the second piece of the trimmed visible price text split on
      single spaces, otherwise "". A piece taken from the visible text never
      holds a space, and a visible text that is a single word gives "". */
  function PriceText(s: SubItemNode): (p: string)
    ensures s.hiddenPrice.Some? ==> p == s.hiddenPrice.value
    ensures s.hiddenPrice.None? ==>
              var parts := Split(TrimSpace(s.priceText), ' ');
              p == if |parts| > 1 then parts[1] else ""
    ensures s.hiddenPrice.None? ==> ' ' !in p
    ensures s.hiddenPrice.None? && ' ' !in TrimSpace(s.priceText) ==> p == ""
  {
    if s.hiddenPrice.Some? then s.hiddenPrice.value
    else
      var text := TrimSpace(s.priceText);
      var parts := Split(text, ' ');
      SplitJoinsBack(text, ' ');
      assert ' ' !in text ==> parts == [text] by {
        if ' ' !in text { SplitJoin([text], ' '); }
      }
      if |parts| > 1 then parts[1] else ""
  }

  /** A visible price of the form "<currency> <amount>" (no other white space)
      yields the amount as the price string. */
  lemma VisiblePriceToken(s: SubItemNode, currency: string, amount: string)
    requires s.hiddenPrice.None?
    requires currency != [] && amount != []
    requires NoSpace(currency) && NoSpace(amount)
    requires s.priceText == currency + " " + amount
    ensures PriceText(s) == amount
  {
    var text := s.priceText;
    assert text[0] == currency[0] && text[|text| - 1] == amount[|amount| - 1];
    TrimSpaceOfTrimmed(text);
    assert ' ' !in currency && ' ' !in amount by {
      assert IsSpace(' ');
    }
    assert Join([currency, amount], ' ') == text;
    SplitJoin([currency, amount], ' ');
  }

  /** A visible price text whose trimmed form is two or more words joined by
      single spaces yields the second word, whatever follows it; an empty
      word, as between two consecutive spaces, yields "". */
  lemma VisiblePriceSecondWord(s: SubItemNode, words: seq<string>)
    requires s.hiddenPrice.None?
    requires |words| >= 2 && SepFree(words, ' ')
    requires TrimSpace(s.priceText) == Join(words, ' ')
    ensures PriceText(s) == words[1]
  {
    SplitJoin(words, ' ');
  }

  /** "Rs. 250 each" gives "250": words after the second are ignored. */
  lemma VisiblePriceWithTrailingWord()
    ensures PriceText(SubItemNode("", None, "Rs. 250 each")) == "250"
  {
    var text := "Rs. 250 each";
    assert TrimSpace(text) == text by {
      assert !IsSpace(text[0]) && !IsSpace(text[|text| - 1]);
      TrimSpaceOfTrimmed(text);
    }
    assert Join(["Rs.", "250", "each"], ' ') == text;
    VisiblePriceSecondWord(SubItemNode("", None, text), ["Rs.", "250", "each"]);
  }

  /** "Rs.  250", with two spaces, gives "": the second piece is the empty one between them. */
  lemma VisiblePriceWithDoubleSpace()
    ensures PriceText(SubItemNode("", None, "Rs.  250")) == ""
  {
    var text := "Rs.  250";
    assert TrimSpace(text) == text by {
      assert !IsSpace(text[0]) && !IsSpace(text[|text| - 1]);
      TrimSpaceOfTrimmed(text);
    }
    assert Join(["Rs.", "", "250"], ' ') == text;
    VisiblePriceSecondWord(SubItemNode("", None, text), ["Rs.", "", "250"]);
  }

  /** The serving of one `.menu-subitem`, or the error sent when its price
      string is not an integer (the serving is then skipped). */
  function ServingResult(s: SubItemNode): (r: Result<Serving, CrawlError>)
    ensures r.Failure? <==> ParseInt64(PriceText(s)).None?
    ensures r.Failure? ==> r.error == PriceParseError(PriceText(s))
    ensures r.Success? ==> r.value == Serving(TrimSpace(s.nameText), ParseInt64(PriceText(s)).value)
  {
    var p := PriceText(s);
    match ParseInt64(p)
    case None => Failure(PriceParseError(p))
    case Some(price) => Success(Serving(TrimSpace(s.nameText), price))
  }

  /** A visible price "<currency> <amount>" printed with `%d` parses back to the amount. */
  lemma VisiblePriceRoundTrip(name: string, currency: string, amount: int)
    requires currency != [] && NoSpace(currency)
    requires InInt64(amount)
    ensures ServingResult(SubItemNode(name, None, currency + " " + FormatInt(amount)))
         == Success(Serving(TrimSpace(name), amount))
  {
    var s := SubItemNode(name, None, currency + " " + FormatInt(amount));
    assert NoSpace(FormatInt(amount));
    VisiblePriceToken(s, currency, FormatInt(amount));
    ParseFormatInt(amount);
  }

  /** A hidden `ItemPrice` value printed with `%d` is the serving's price,
      whatever the visible price text says. */
  lemma HiddenPriceServing(name: string, amount: int, visible: string)
    requires InInt64(amount)
    ensures ServingResult(SubItemNode(name, Some(FormatInt(amount)), visible))
         == Success(Serving(TrimSpace(name), amount))
  {
    ParseFormatInt(amount);
  }

  /** The outcome of every `.menu-subitem` of an item, in document order. */
  function ServingResults(subs: seq<SubItemNode>): seq<Result<Serving, CrawlError>>
  {
    Map(ServingResult, subs)
  }

  /** The servings appended for one item, in document order, skipping those
      whose price does not parse. */
  function ServingsOf(subs: seq<SubItemNode>): seq<Serving>
  {
    Successes(ServingResults(subs))
  }

  /** The errors sent for one item: one per serving whose price does not parse, in document order. */
  function PriceErrors(subs: seq<SubItemNode>): seq<CrawlError>
  {
    Failures(ServingResults(subs))
  }

  /** Reading one more `.menu-subitem` appends its serving or its error. */
  lemma ServingsOfSnoc(subs: seq<SubItemNode>, k: nat)
    requires k < |subs|
    ensures ServingResult(subs[k]).Success? ==>
      ServingsOf(subs[..k + 1]) == ServingsOf(subs[..k]) + [ServingResult(subs[k]).value]
      && PriceErrors(subs[..k + 1]) == PriceErrors(subs[..k])
    ensures ServingResult(subs[k]).Failure? ==>
      ServingsOf(subs[..k + 1]) == ServingsOf(subs[..k])
      && PriceErrors(subs[..k + 1]) == PriceErrors(subs[..k]) + [ServingResult(subs[k]).error]
  {
    var rs := ServingResults(subs[..k + 1]);
    MapSplit(ServingResult, subs[..k + 1], k);
    assert subs[..k + 1][..k] == subs[..k];
  }

  /** Every `.menu-subitem` of an item yields either a serving or one price error. */
  lemma ServingsOrErrors(subs: seq<SubItemNode>)
    ensures |ServingsOf(subs)| + |PriceErrors(subs)| == |subs|
  {
    SuccessesOrFailures(ServingResults(subs));
  }

  /** An item with a single `.menu-subitem` yields that serving, or nothing when its price does not parse. */
  lemma SingleSubItem(s: SubItemNode)
    ensures ServingsOf([s]) == if ServingResult(s).Success? then [ServingResult(s).value] else []
  {
    assert [s][..0] == [];
    ServingsOfSnoc([s], 0);
  }

  /** An unparseable price removes exactly that serving and adds exactly one
      error, for that price string; the servings before and after it are kept,
      in order. */
  lemma BadPriceSkipsOnlyItsServing(subs: seq<SubItemNode>, k: nat)
    requires k < |subs| && ServingResult(subs[k]).Failure?
    ensures ServingsOf(subs) == ServingsOf(subs[..k]) + ServingsOf(subs[k + 1..])
    ensures PriceErrors(subs) == PriceErrors(subs[..k]) + [PriceParseError(PriceText(subs[k]))] + PriceErrors(subs[k + 1..])
  {
    var rs := ServingResults(subs);
    MapSplit(ServingResult, subs, k);
    MapSplit(ServingResult, subs, k + 1);
    SkipFailure(rs, k);
  }

  /** When every price parses, an item keeps all its servings, one per
      `.menu-subitem` in document order, and sends no error. */
  lemma CleanPricesKeepEveryServing(subs: seq<SubItemNode>)
    requires forall i :: 0 <= i < |subs| ==> ServingResult(subs[i]).Success?
    ensures |ServingsOf(subs)| == |subs|
    ensures forall i :: 0 <= i < |subs| ==> ServingsOf(subs)[i] == ServingResult(subs[i]).value
    ensures PriceErrors(subs) == []
  {
    AllSuccesses(ServingResults(subs));
  }

  // ---------------------------------------------------------------------------
  // The menu of a detail page

  /** The servings read from one `.menu-item`. */
  function ItemServings(item: ItemNode): seq<Serving>
  {
    ServingsOf(item.subItems)
  }

  /** The servings gathered from the first `n` items of a category, in document order. */
  function ServingsUpTo(items: seq<ItemNode>, n: nat): seq<Serving>
    requires n <= |items|
  {
    Concat(Map(ItemServings, items)[..n])
  }

  /** Reading one more item appends its servings. */
  lemma ServingsUpToSnoc(items: seq<ItemNode>, n: nat)
    requires n < |items|
    ensures ServingsUpTo(items, n + 1) == ServingsUpTo(items, n) + ServingsOf(items[n].subItems)
  {
    var lists := Map(ItemServings, items);
    assert lists[..n + 1][..n] == lists[..n];
  }

  /** The meal appended for the k-th item of a category: the category heading,
      the item's trimmed name and its description. The crawler builds one meal
      value per category and keeps appending servings to it, so the k-th meal
      carries the servings of items 0 through k. */
  function MealAt(c: CategoryNode, k: nat): (m: Meal)
    requires k < |c.items|
    ensures m.category == c.heading
    ensures m.name == TrimSpace(c.items[k].directText)
    ensures m.description == c.items[k].smallText
    ensures m.servings == ServingsUpTo(c.items, k + 1)
  {
    Meal(c.heading, TrimSpace(c.items[k].directText), c.items[k].smallText, ServingsUpTo(c.items, k + 1))
  }

  /** The meals appended for one category, one per item, in document order. */
  function CategoryMeals(c: CategoryNode): seq<Meal>
  {
    seq(|c.items|, k requires 0 <= k < |c.items| => MealAt(c, k))
  }

  /** Servings accumulate within a category: the first meal holds the first
      item's servings and each later meal holds the previous meal's servings
      followed by its own item's. */
  lemma ServingsAccumulate(c: CategoryNode, k: nat)
    requires k < |c.items|
    ensures |CategoryMeals(c)| == |c.items|
    ensures k == 0 ==> CategoryMeals(c)[k].servings == ServingsOf(c.items[0].subItems)
    ensures k > 0 ==> CategoryMeals(c)[k].servings
                      == CategoryMeals(c)[k - 1].servings + ServingsOf(c.items[k].subItems)
  {
    ServingsUpToSnoc(c.items, k);
    if k == 0 {
      assert Map(ItemServings, c.items)[..0] == [];
    }
  }

  /** Every servings list of a category is a prefix of the ones after it:
      a later meal never loses the servings of an earlier one. */
  lemma EarlierMealServingsArePrefix(c: CategoryNode, j: nat, k: nat)
    requires j <= k < |c.items|
    ensures |CategoryMeals(c)[j].servings| <= |CategoryMeals(c)[k].servings|
    ensures CategoryMeals(c)[k].servings[..|CategoryMeals(c)[j].servings|] == CategoryMeals(c)[j].servings
  {
    var lists := Map(ItemServings, c.items);
    ConcatPrefix(lists[..k + 1], j + 1);
    assert lists[..k + 1][..j + 1] == lists[..j + 1];
  }

  /** Two items with one serving each: the second meal repeats the first
      item's serving before its own. */
  lemma SecondMealRepeatsFirstServing()
    ensures var c := CategoryNode("Pizza", [
              ItemNode("Small", "", [SubItemNode("S", Some("10"), "")]),
              ItemNode("Large", "", [SubItemNode("L", Some("20"), "")])]);
            CategoryMeals(c)[1].servings == [Serving("S", 10), Serving("L", 20)]
  {
    var s1, s2 := SubItemNode("S", Some("10"), ""), SubItemNode("L", Some("20"), "");
    var c := CategoryNode("Pizza", [ItemNode("Small", "", [s1]), ItemNode("Large", "", [s2])]);
    assert FormatInt(10) == "10" && FormatInt(20) == "20";
    assert TrimSpace("S") == "S" && TrimSpace("L") == "L" by {
      TrimSpaceOfTrimmed("S");
      TrimSpaceOfTrimmed("L");
    }
    HiddenPriceServing("S", 10, "");
    HiddenPriceServing("L", 20, "");
    ServingsAccumulate(c, 1);
    ServingsAccumulate(c, 0);
  }

  /** The errors sent for the items of a category, in document order. */
  function ItemErrors(items: seq<ItemNode>): seq<CrawlError>
  {
    if items == [] then []
    else ItemErrors(items[..|items| - 1]) + PriceErrors(items[|items| - 1].subItems)
  }

  /** Reading one more item of a category appends its meal. */
  lemma CategoryMealsSnoc(c: CategoryNode, j: nat)
    requires j < |c.items|
    ensures CategoryMeals(c)[..j + 1] == CategoryMeals(c)[..j] + [MealAt(c, j)]
  {
    var meals := CategoryMeals(c);
    assert meals[j] == MealAt(c, j);
    assert meals[..j + 1] == meals[..j] + [meals[j]];
  }

  /** Reading one more item appends its price errors. */
  lemma ItemErrorsSnoc(items: seq<ItemNode>, j: nat)
    requires j < |items|
    ensures ItemErrors(items[..j + 1]) == ItemErrors(items[..j]) + PriceErrors(items[j].subItems)
  {
    assert items[..j + 1][..j] == items[..j];
  }

  /** The errors sent for the items of one category. */
  function CategoryErrors(c: CategoryNode): seq<CrawlError>
  {
    ItemErrors(c.items)
  }

  /** The meals appended for a sequence of categories, in document order. */
  function MenuOf(cats: seq<CategoryNode>): seq<Meal>
  {
    Concat(Map(CategoryMeals, cats))
  }

  /** The errors sent while reading a sequence of categories, in document order. */
  function MenuErrors(cats: seq<CategoryNode>): seq<CrawlError>
  {
    Concat(Map(CategoryErrors, cats))
  }

  /** Reading one more category appends its meals and its errors. */
  lemma MenuSnoc(cats: seq<CategoryNode>, i: nat)
    requires i < |cats|
    ensures MenuOf(cats[..i + 1]) == MenuOf(cats[..i]) + CategoryMeals(cats[i])
    ensures MenuErrors(cats[..i + 1]) == MenuErrors(cats[..i]) + ItemErrors(cats[i].items)
  {
    MapSplit(CategoryMeals, cats, i);
    MapSplit(CategoryMeals, cats, i + 1);
    ConcatSnoc(Map(CategoryMeals, cats), i);
    MapSplit(CategoryErrors, cats, i);
    MapSplit(CategoryErrors, cats, i + 1);
    ConcatSnoc(Map(CategoryErrors, cats), i);
  }

  /** The number of `.menu-item` blocks in a sequence of categories. */
  function ItemCount(cats: seq<CategoryNode>): nat
  {
    if cats == [] then 0 else ItemCount(cats[..|cats| - 1]) + |cats[|cats| - 1].items|
  }

  /** One meal is appended per menu item. */
  lemma {:induction false} OneMealPerItem(cats: seq<CategoryNode>)
    ensures |MenuOf(cats)| == ItemCount(cats)
  {
    if cats != [] {
      var i := |cats| - 1;
      OneMealPerItem(cats[..i]);
      MenuSnoc(cats, i);
      assert cats[..i + 1] == cats;
    }
  }

  /** Position k of category i's meals is position ItemCount(cats[..i]) + k
      of the menu. */
  lemma MenuIndex(cats: seq<CategoryNode>, i: nat, k: nat)
    requires i < |cats| && k < |CategoryMeals(cats[i])|
    ensures ItemCount(cats[..i]) + k < |MenuOf(cats)|
    ensures MenuOf(cats)[ItemCount(cats[..i]) + k] == CategoryMeals(cats[i])[k]
  {
    var lists := Map(CategoryMeals, cats);
    var before := ItemCount(cats[..i]);
    assert before == |Concat(lists[..i])| by {
      OneMealPerItem(cats[..i]);
      MapSplit(CategoryMeals, cats, i);
    }
    ConcatIndex(lists, i, k);
  }

  /** The meal for item k of category i sits after the meals of the earlier
      categories' items: meals follow document order. */
  lemma MealPosition(cats: seq<CategoryNode>, i: nat, k: nat)
    requires i < |cats| && k < |cats[i].items|
    ensures ItemCount(cats[..i]) + k < |MenuOf(cats)|
    ensures MenuOf(cats)[ItemCount(cats[..i]) + k] == MealAt(cats[i], k)
  {
    MenuIndex(cats, i, k);
  }

  /** Servings and price errors of two runs of sub-items, one after the other. */
  lemma ServingsAppend(a: seq<SubItemNode>, b: seq<SubItemNode>)
    ensures ServingsOf(a + b) == ServingsOf(a) + ServingsOf(b)
    ensures PriceErrors(a + b) == PriceErrors(a) + PriceErrors(b)
  {
    MapAppend(ServingResult, a, b);
    SuccessesAppend(ServingResults(a), ServingResults(b));
  }

  /** The `.menu-subitem` blocks of a run of items, in document order. */
  function ItemSubItems(items: seq<ItemNode>): seq<SubItemNode>
  {
    if items == [] then [] else ItemSubItems(items[..|items| - 1]) + items[|items| - 1].subItems
  }

  /** The `.menu-subitem` blocks of a detail page's categories, in document order. */
  function MenuSubItems(cats: seq<CategoryNode>): seq<SubItemNode>
  {
    if cats == [] then [] else MenuSubItems(cats[..|cats| - 1]) + ItemSubItems(cats[|cats| - 1].items)
  }

  /** The price errors of a run of items are those of their sub-items in document order. */
  lemma {:induction false} ItemErrorsInDocumentOrder(items: seq<ItemNode>)
    ensures ItemErrors(items) == PriceErrors(ItemSubItems(items))
  {
    if items != [] {
      var init := items[..|items| - 1];
      ItemErrorsInDocumentOrder(init);
      ServingsAppend(ItemSubItems(init), items[|items| - 1].subItems);
    } else {
      assert ServingResults([]) == [];
    }
  }

  /** The errors `inner` sends for a detail page are the price errors of all
      its `.menu-subitem` blocks taken in document order: one per serving
      whose price does not parse, for that price string. */
  lemma {:induction false} MenuErrorsInDocumentOrder(cats: seq<CategoryNode>)
    ensures MenuErrors(cats) == PriceErrors(MenuSubItems(cats))
  {
    if cats == [] {
      assert ServingResults([]) == [];
      assert Map(CategoryErrors, cats) == [];
    } else {
      var i := |cats| - 1;
      MenuErrorsInDocumentOrder(cats[..i]);
      MenuSnoc(cats, i);
      assert cats[..i + 1] == cats;
      ItemErrorsInDocumentOrder(cats[i].items);
      ServingsAppend(MenuSubItems(cats[..i]), ItemSubItems(cats[i].items));
    }
  }

  /** Every `.menu-subitem` of a detail page gives either a serving or one error. */
  lemma MenuErrorPerFailedServing(cats: seq<CategoryNode>)
    ensures |MenuErrors(cats)| + |ServingsOf(MenuSubItems(cats))| == |MenuSubItems(cats)|
  {
    MenuErrorsInDocumentOrder(cats);
    ServingsOrErrors(MenuSubItems(cats));
  }

  /** A detail page whose prices all parse sends no error. */
  lemma CleanMenuSendsNoErrors(cats: seq<CategoryNode>)
    requires forall s :: s in MenuSubItems(cats) ==> ServingResult(s).Success?
    ensures MenuErrors(cats) == []
  {
    MenuErrorsInDocumentOrder(cats);
    var subs := MenuSubItems(cats);
    assert forall i :: 0 <= i < |subs| ==> ServingResult(subs[i]).Success? by {
      forall i | 0 <= i < |subs|
        ensures ServingResult(subs[i]).Success?
      {
        assert subs[i] in subs;
      }
    }
    CleanPricesKeepEveryServing(subs);
  }

  // ---------------------------------------------------------------------------
  // A restaurant's detail page

  /** The restaurant and the errors `inner` produces for a summary: the detail
      page is fetched at the base URL followed by the restaurant's relative URL;
      when that fails, the summary comes back unchanged with exactly one error;
      otherwise the menu meals are appended and the price errors sent. Either
      way, no summary field changes and the existing menu is kept as a prefix. */
  function Detail(baseUrl: string, r: Restaurant, fetch: string -> Option<DetailDoc>)
    : (out: (Restaurant, seq<CrawlError>))
    ensures out.0 == r.(menu := out.0.menu)
    ensures |r.menu| <= |out.0.menu| && out.0.menu[..|r.menu|] == r.menu
    ensures fetch(DetailUrl(baseUrl, r.url)).None?
            ==> out == (r, [DetailFetchError(DetailUrl(baseUrl, r.url))])
    ensures fetch(DetailUrl(baseUrl, r.url)).Some?
            ==> var cats := fetch(DetailUrl(baseUrl, r.url)).value.categories;
                out.0.menu == r.menu + MenuOf(cats) && out.1 == MenuErrors(cats)
    ensures fetch(DetailUrl(baseUrl, r.url)).Some?
            ==> |out.0.menu| == |r.menu| + ItemCount(fetch(DetailUrl(baseUrl, r.url)).value.categories)
  {
    var url := DetailUrl(baseUrl, r.url);
    match fetch(url)
    case None => (r, [DetailFetchError(url)])
    case Some(doc) =>
      OneMealPerItem(doc.categories);
      (r.(menu := r.menu + MenuOf(doc.categories)), MenuErrors(doc.categories))
  }
}
