/**
 * The Traefik label-key grammar shared by internal/proxy and
 * internal/proxy/middlewares: traefik.http.<kind>.<name><tail>.
 */
module Labels {

  type Labels = map<string, string>

  const RoutersPrefix: string := "traefik.http.routers."
  const ServicesPrefix: string := "traefik.http.services."

  // router tails: <deployment>-insecure.* and <deployment>-secure.*
  const InsecureRule: string := "-insecure.rule"
  const InsecureEntrypoints: string := "-insecure.entrypoints"
  const InsecureMiddlewares: string := "-insecure.middlewares"
  const SecureTls: string := "-secure.tls"
  const SecureEntrypoints: string := "-secure.entrypoints"
  const SecureCertResolver: string := "-secure.tls.certresolver"
  const SecureRule: string := "-secure.rule"
  const SecureMiddlewares: string := "-secure.middlewares"

  // service tails
  const ServerPort: string := ".loadbalancer.server.port"
  const ServerScheme: string := ".loadbalancer.server.scheme"

  function RouterKey(deployment: string, tail: string): string
  {
    RoutersPrefix + deployment + tail
  }

  function ServiceKey(service: string, tail: string): string
  {
    ServicesPrefix + service + tail
  }

  /** Keys of one router that differ in their tails differ. */
  lemma RouterKeysDistinct(deployment: string, t1: string, t2: string)
    requires t1 != t2
    ensures RouterKey(deployment, t1) != RouterKey(deployment, t2)
  {
    var n := |RoutersPrefix + deployment|;
    assert RouterKey(deployment, t1)[n..] == t1;
    assert RouterKey(deployment, t2)[n..] == t2;
  }
}
