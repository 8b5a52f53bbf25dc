/** internal/proxy/middlewares: the HTTP-to-HTTPS redirect middleware. */
module Middlewares {
  import opened Labels

  const MiddlewaresPrefix: string := "traefik.http.middlewares."
  const RedirectMiddleware: string := "redirect-to-https"

  const RedirectScheme: string := MiddlewaresPrefix + RedirectMiddleware + ".redirectscheme.scheme"
  const RedirectPort: string := MiddlewaresPrefix + RedirectMiddleware + ".redirectscheme.port"
  const RedirectPermanent: string := MiddlewaresPrefix + RedirectMiddleware + ".redirectscheme.permanent"

  /** The namespace's router key never coincides with a fixed middleware key. */
  lemma RouterKeyIsNotMiddlewareKey(namespace: string, tail: string)
    ensures RouterKey(namespace, tail) != RedirectScheme
    ensures RouterKey(namespace, tail) != RedirectPort
    ensures RouterKey(namespace, tail) != RedirectPermanent
  {
    var k := RouterKey(namespace, tail);
    assert k[13] == RoutersPrefix[13] == 'r';
    assert RedirectScheme[13] == MiddlewaresPrefix[13] == 'm';
    assert RedirectPort[13] == MiddlewaresPrefix[13];
    assert RedirectPermanent[13] == MiddlewaresPrefix[13];
  }

  /**
   * RedirectToHTTPSLabels: exactly four labels; the namespace's insecure
   * router goes through the redirect, which sends clients permanently to
   * https on port 443.
   */
  function RedirectToHTTPSLabels(namespace: string): (labels: Labels)
    ensures labels.Keys == {RouterKey(namespace, InsecureMiddlewares), RedirectScheme, RedirectPort, RedirectPermanent}
    ensures |labels| == 4
    ensures labels[RouterKey(namespace, InsecureMiddlewares)] == "redirect-to-https@docker"
    ensures labels[RedirectScheme] == "https"
    ensures labels[RedirectPort] == "443"
    ensures labels[RedirectPermanent] == "true"
  {
    RouterKeyIsNotMiddlewareKey(namespace, InsecureMiddlewares);
    map[
      RouterKey(namespace, InsecureMiddlewares) := "redirect-to-https@docker",
      RedirectScheme := "https",
      RedirectPort := "443",
      RedirectPermanent := "true"
    ]
  }

  /** The three redirect middleware labels are the same whatever the namespace. */
  lemma RedirectMiddlewareIndependentOfNamespace(n1: string, n2: string)
    ensures forall k :: k in {RedirectScheme, RedirectPort, RedirectPermanent} ==>
      k in RedirectToHTTPSLabels(n1) && k in RedirectToHTTPSLabels(n2)
      && RedirectToHTTPSLabels(n1)[k] == RedirectToHTTPSLabels(n2)[k]
  {
  }
}
