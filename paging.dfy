/** Token-driven listings, as both AWS APIs here page them: each answer
    carries some items and, unless it is the last, a token that asks for
    the next page. */
module Paging {
  import opened Wrappers

  /** Python's truth value of the token a response carries: absent and
      empty tokens both end a listing. */
  predicate HasMore(token: Option<string>) {
    token.Some? && token.value != ""
  }

  datatype Page<T> = Page(items: seq<T>, nextToken: Option<string>)

  /** The pages one listing walks through. Every page except the last
      carries a token. No two pages carry the same token. */
  ghost predicate WellChained<T>(pages: seq<Page<T>>) {
    && |pages| > 0
    && (forall k :: 0 <= k < |pages| ==> (HasMore(pages[k].nextToken) <==> k < |pages| - 1))
    && (forall k, l :: 0 <= k < l < |pages| - 1 ==> pages[k].nextToken != pages[l].nextToken)
  }

  /** The page whose token is `t`. */
  function TokenIndex<T>(pages: seq<Page<T>>, t: string): (r: Option<nat>)
    ensures r.Some? ==> r.value + 1 < |pages| && pages[r.value].nextToken == Some(t)
    ensures r.Some? ==> forall k :: 0 <= k < r.value ==> pages[k].nextToken != Some(t)
  {
    if |pages| <= 1 then None
    else if pages[0].nextToken == Some(t) then Some(0)
    else match TokenIndex(pages[1..], t)
      case None => None
      case Some(k) => Some(k + 1)
  }

  /** The page the service answers: the first one without a token, else
      the one after the page that handed the token out. */
  function PageFor<T>(pages: seq<Page<T>>, token: Option<string>): Page<T>
    requires |pages| > 0
    requires token.Some? ==> TokenIndex(pages, token.value).Some?
  {
    if token.None? then pages[0] else pages[TokenIndex(pages, token.value).value + 1]
  }

  /** Following the chain: the token of page `k` leads to page `k + 1`. */
  lemma PageAfterToken<T>(pages: seq<Page<T>>, k: nat)
    requires WellChained(pages) && k + 1 < |pages|
    ensures TokenIndex(pages, pages[k].nextToken.value) == Some(k)
    ensures PageFor(pages, pages[k].nextToken) == pages[k + 1]
  {
    // The search stops at page k at the latest, and no earlier page
    // carries the same token.
    TokenIndexFinds(pages, pages[k].nextToken.value, k);
  }

  lemma {:induction false} TokenIndexFinds<T>(pages: seq<Page<T>>, t: string, k: nat)
    requires k + 1 < |pages| && pages[k].nextToken == Some(t)
    ensures TokenIndex(pages, t).Some? && TokenIndex(pages, t).value <= k
  {
    if pages[0].nextToken != Some(t) {
      TokenIndexFinds(pages[1..], t, k - 1);
    }
  }

  /** The token sent with the request for page `k`: none for the first
      page, then the token the previous page handed out. */
  function TokenBefore<T>(pages: seq<Page<T>>, k: nat): Option<string>
    requires k < |pages|
  {
    if k == 0 then None else pages[k - 1].nextToken
  }

  /** Walking the chain: the request for page `k` carries a token the
      service knows, and is answered with page `k`. So every page is listed
      once, in order. */
  lemma TokensWalkThePages<T>(pages: seq<Page<T>>, k: nat)
    requires WellChained(pages) && k < |pages|
    ensures TokenBefore(pages, k).Some? ==> TokenIndex(pages, TokenBefore(pages, k).value).Some?
    ensures PageFor(pages, TokenBefore(pages, k)) == pages[k]
  {
    if k > 0 {
      PageAfterToken(pages, k - 1);
    }
  }

  /** Requests logged in two steps are the log followed by both steps. */
  lemma Assoc<T>(a: seq<T>, b: seq<T>, c: seq<T>)
    ensures a + b + c == a + (b + c)
  {
  }
}
