/** The records the crawler produces (store/model) and the errors it reports. */
module Model {

  /** A purchasable variant of a meal; `kind` is the Go field `Type` (a size or portion label). */
  datatype Serving = Serving(kind: string, price: int)

  /** One entry of a menu; `category` is the Go field `Type` (the heading of the menu tab). */
  datatype Meal = Meal(category: string, name: string, description: string, servings: seq<Serving>)

  /** A review; the crawler never fills these in. `postedAt` stands for a time.Time. */
  datatype Review = Review(author: string, postedAt: int, rating: int, text: string)

  /** model.Restaurant. `cuisine` is the Go field `Type`; `deliveryTime` is a
      time.Duration (nanoseconds). */
  datatype Restaurant = Restaurant(
    imgUrl: string,
    url: string,
    title: string,
    deliveryTime: int,
    cuisine: string,
    rating: int,
    menu: seq<Meal>,
    reviews: seq<Review>)

  /** `model.Restaurant{}`: every field at its zero value. */
  const EmptyRestaurant: Restaurant := Restaurant("", "", "", 0, "", 0, [], [])

  /** An error sent on the crawler's error channel, tagged with the step that
      produced it and the text or URL that step was working on. */
  datatype CrawlError =
    | RatingParseError(rating: string)
    | DurationParseError(text: string)
    | DetailFetchError(url: string)
    | PriceParseError(price: string)
}

/** What the crawler reads from the fetched HTML, after goquery has evaluated
    its selectors: each selection becomes a field, in document order. */
module Documents {
  import opened Wrappers

  /** One `section#listing-container > article` of a listing page. An attribute
      is `None` when the element or the attribute is missing. */
  datatype Card = Card(
    imgSrc: Option<string>,       // `.item-pic > img` src
    href: Option<string>,         // `.item-pic > a` href
    titleText: string,            // `.item-title > a` text
    dataRating: Option<string>,   // `.item-title > span.item-star-rating` data-rating
    addressText: string,          // `.item-meta > .item-address` text
    deliveryText: string)         // last child of the first `.item-meta .row-fluid .span4`

  /** One `.menu-subitems > .menu-subitem`. */
  datatype SubItemNode = SubItemNode(
    nameText: string,               // `.subitem-name` text
    hiddenPrice: Option<string>,    // `input[type=hidden]#ItemPrice` value
    priceText: string)              // `.subitem-price > span` text

  /** One `.menu-item`. */
  datatype ItemNode = ItemNode(
    directText: string,             // the text nodes directly under `.menu-item-name`
    smallText: string,              // `.menu-item-name > small` text
    subItems: seq<SubItemNode>)

  /** One `.tab-pane.mspan7-menu`. */
  datatype CategoryNode = CategoryNode(
    heading: string,                // `h4` text
    items: seq<ItemNode>)

  /** A fetched restaurant detail page. */
  datatype DetailDoc = DetailDoc(categories: seq<CategoryNode>)
}
