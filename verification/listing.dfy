/** The search-result page: the "nothing found" sentinel and the choice of
    the detail link of each result row. */
module Listing {
  import opened Optional
  import opened Sequences
  import opened Strings

  /** Text whose presence in the page body means the search found nothing. */
  const NoViolationsSentinel := "Administrative violations have not been found."

  /** Domain of the payment site; a link to it marks a genuine fine row. */
  const PaymentDomain := "mpi.gc.ge"

  /** An `<a>` element of a row, with its `href` attribute if it has one. */
  datatype Anchor = Anchor(href: Option<string>)

  /** Matches the selector `a[href*="mpi.gc.ge"]`. */
  predicate IsPayLink(a: Anchor) {
    a.href.Some? && Contains(a.href.value, PaymentDomain)
  }

  /** `row.find('a[href*="mpi.gc.ge"]')`. */
  function PayLinks(anchors: seq<Anchor>): seq<Anchor> {
    Filter(anchors, IsPayLink)
  }

  /** `row.find("a").first().attr("href")`: undefined when the row has no
      anchor or its first anchor has no `href`. */
  function FirstHref(anchors: seq<Anchor>): Option<string> {
    if |anchors| == 0 then None else anchors[0].href
  }

  /** The detail link of a row, or `None` when the row is skipped: it has no
      payment link, or its first anchor's `href` is missing or empty (both
      are falsy to `if (!detailLink) continue`). The link is the first
      anchor's, which need not be the payment link. */
  function DetailLink(anchors: seq<Anchor>): (r: Option<string>)
    ensures r.Some? <==>
              (exists k :: 0 <= k < |anchors| && IsPayLink(anchors[k]))
              && anchors[0].href.Some? && anchors[0].href.value != ""
    ensures r.Some? ==> r.value == anchors[0].href.value
  {
    var pay := PayLinks(anchors);
    if |pay| == 0 then None
    else
      assert pay[0] in anchors && IsPayLink(pay[0]);
      match FirstHref(anchors)
      case None => None
      case Some(href) => if href == "" then None else Some(href)
  }

  /** `$("body").text().includes(...)`. */
  predicate NoViolations(bodyText: string) {
    Contains(bodyText, NoViolationsSentinel)
  }
}
