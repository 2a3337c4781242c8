/**
 * Where a search result points: an in-page anchor when the result lives on the
 * page being shown, the page URL with its anchor otherwise.
 */
module Links {
  import opened Wrappers

  /** `{ href, onClick }`, with the click handler reduced to whether there is one. */
  datatype Link = Link(href: string, samePage: bool)

  /** `getLinkBehavior`, with the page's `location.pathname` passed in. */
  function GetLinkBehavior(baseUrl: string, hashString: string, pathname: string): (r: Link)
    ensures r.samePage <==> pathname == "/" + baseUrl
    // an in-page link is a bare fragment; any other link is a rooted path
    ensures |r.href| > 0 && (r.href[0] == '#' <==> r.samePage)
    ensures |hashString| < |r.href| && r.href[|r.href| - |hashString| - 1..] == "#" + hashString
  {
    var url := "/" + baseUrl;
    if url == pathname then Link("#" + hashString, true)
    else Link(url + "#" + hashString, false)
  }

  /** The address a browser on `pathname` goes to for `href`: a bare fragment stays on the page. */
  function Resolve(pathname: string, href: string): string {
    if |href| > 0 && href[0] == '#' then pathname + href else href
  }

  /**
   * Both hrefs `getLinkBehavior` builds resolve to the same address: the
   * result's page, at its anchor. (Whether the browser goes there is `Destination`.)
   */
  lemma LinkTargetIndependentOfPage(baseUrl: string, hashString: string, pathname: string)
    ensures Resolve(pathname, GetLinkBehavior(baseUrl, hashString, pathname).href)
            == "/" + baseUrl + "#" + hashString
  {
    var r := GetLinkBehavior(baseUrl, hashString, pathname);
    if r.samePage {
      assert pathname + r.href == "/" + baseUrl + "#" + hashString;
    } else {
      assert r.href[0] == '/';
    }
  }

  /**
   * Where following a link takes the browser. An in-page link's click handler
   * cancels the anchor's own navigation and then fails, calling the result of
   * `window.scrollTo` as a function, so the browser stays where it is; any
   * other link has no handler and is followed to its href.
   */
  function Destination(link: Link): (r: Option<string>)
    ensures r.Some? <==> !link.samePage
    ensures r.Some? ==> r.value == link.href
  {
    if link.samePage then None else Some(link.href)
  }

  /** A result is reached exactly when it lives on another page, and then at `/baseUrl#hashString`. */
  lemma OnlyOtherPagesReached(baseUrl: string, hashString: string, pathname: string)
    ensures Destination(GetLinkBehavior(baseUrl, hashString, pathname))
            == if pathname == "/" + baseUrl then None else Some("/" + baseUrl + "#" + hashString)
  {
  }
}
