/** The URLs the crawler requests: the listing URI built once per crawler,
    one page URL per listing page and one detail URL per restaurant. */
module Urls {
  import opened Wrappers
  import opened GoStrings

  const DeliveryPath: string := "/delivery"
  const PageQuery: string := "?&Search_PageNo="

  /** `fmt.Sprintf("%s/%s/delivery", baseUrl, city)`. The base URL and a city
      without `/` can be read back from it: the city is the last path segment
      before `/delivery` and the base URL is everything before that. */
  function ListingUri(baseUrl: string, city: string): (uri: string)
    ensures |uri| == |baseUrl| + |city| + 1 + |DeliveryPath|
    ensures uri[..|baseUrl|] == baseUrl && uri[|baseUrl|] == '/'
    ensures uri[|baseUrl| + 1..|baseUrl| + 1 + |city|] == city
    ensures uri[|uri| - |DeliveryPath|..] == DeliveryPath
  {
    baseUrl + "/" + city + DeliveryPath
  }

  /** Different (base URL, city) pairs give different listing URIs, as long as
      the cities contain no `/`. */
  lemma ListingUriInjective(b1: string, c1: string, b2: string, c2: string)
    requires '/' !in c1 && '/' !in c2
    requires ListingUri(b1, c1) == ListingUri(b2, c2)
    ensures b1 == b2 && c1 == c2
  {
    var u := ListingUri(b1, c1);
    var e := |u| - |DeliveryPath|;
    if |c1| < |c2| {
      assert false;
    } else if |c2| < |c1| {
      assert false;
    } else {
      assert c1 == u[|b1| + 1..e] == c2;
      assert b1 == u[..|b1|] == b2;
    }
  }

  /** `fmt.Sprintf("%s?&Search_PageNo=%d", uri, pno)`: the listing URI, the page
      query, then the page number as `%d` prints it, which parses back to `pno`. */
  function PageUrl(uri: string, pno: int): (url: string)
    ensures |url| > |uri| + |PageQuery|
    ensures url[..|uri|] == uri
    ensures url[|uri|..|uri| + |PageQuery|] == PageQuery
    ensures url[|uri| + |PageQuery|..] == FormatInt(pno)
    ensures InInt64(pno) ==> ParseInt64(url[|uri| + |PageQuery|..]) == Some(pno)
  {
    var url := uri + PageQuery + FormatInt(pno);
    assert url[|uri| + |PageQuery|..] == FormatInt(pno);
    assert InInt64(pno) ==> ParseInt64(FormatInt(pno)) == Some(pno) by {
      if InInt64(pno) { ParseFormatInt(pno); }
    }
    url
  }

  /** Distinct page numbers give distinct page URLs. */
  lemma PageUrlInjective(uri: string, i: int, j: int)
    requires InInt64(i) && InInt64(j)
    requires PageUrl(uri, i) == PageUrl(uri, j)
    ensures i == j
  {
    var n := |uri| + |PageQuery|;
    assert PageUrl(uri, i)[n..] == PageUrl(uri, j)[n..];
  }

  /** `fmt.Sprintf("%s%s", baseUrl, relative)`: the restaurant's relative URL
      appended to the base URL, with no separator added. */
  function DetailUrl(baseUrl: string, relative: string): (url: string)
    ensures |url| == |baseUrl| + |relative|
    ensures url[..|baseUrl|] == baseUrl && url[|baseUrl|..] == relative
  {
    baseUrl + relative
  }
}
