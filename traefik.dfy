/**
 * internal/proxy: the Traefik labels put on a deployment's containers —
 * routers from the deployment's aliases, services from its ports, and the
 * middleware chain (HTTPS redirect, rate limit) attached to its routers.
 */
module Proxy {
  import opened Strings
  import opened Labels
  import Middlewares

  const Or: string := " || "

  function Host(alias: string): string
  {
    "Host(`" + alias + "`)"
  }

  // ---------------------------------------------------------------------
  // Routers
  // ---------------------------------------------------------------------

  /** What the alias loop writes for alias i: nothing for an empty alias, no separator for the last. */
  function RulePiece(aliases: seq<string>, i: nat): string
    requires i < |aliases|
  {
    if aliases[i] == "" then ""
    else if i == |aliases| - 1 then Host(aliases[i])
    else Host(aliases[i]) + Or
  }

  /** The host-rule buffer after the first n aliases. */
  function HostRulesUpTo(aliases: seq<string>, n: nat): string
    requires n <= |aliases|
  {
    if n == 0 then "" else HostRulesUpTo(aliases, n - 1) + RulePiece(aliases, n - 1)
  }

  function HostRules(aliases: seq<string>): string
  {
    HostRulesUpTo(aliases, |aliases|)
  }

  function Hosts(aliases: seq<string>): seq<string>
  {
    seq(|aliases|, i requires 0 <= i < |aliases| => Host(aliases[i]))
  }

  lemma HostsPrefix(aliases: seq<string>, n: nat)
    requires 0 < n <= |aliases|
    ensures Hosts(aliases[..n]) == Hosts(aliases[..n - 1]) + [Host(aliases[n - 1])]
  {
  }

  lemma AppendTerminated(rules: string, joined: string, h: string, sep: string)
    requires rules == joined + sep
    ensures rules + (h + sep) == (joined + sep + h) + sep
  {
  }

  lemma {:induction false} HostRulesUpToAllNonEmpty(aliases: seq<string>, n: nat)
    requires 0 < n < |aliases|
    requires forall i :: 0 <= i < |aliases| ==> aliases[i] != ""
    ensures HostRulesUpTo(aliases, n) == Join(Hosts(aliases[..n]), Or) + Or
    decreases n
  {
    var h := Host(aliases[n - 1]);
    var prev := HostRulesUpTo(aliases, n - 1);
    assert aliases[n - 1] != "";
    assert RulePiece(aliases, n - 1) == h + Or;
    assert HostRulesUpTo(aliases, n) == prev + (h + Or);
    HostsPrefix(aliases, n);
    if n == 1 {
      assert Hosts(aliases[..0]) == [];
    } else {
      HostRulesUpToAllNonEmpty(aliases, n - 1);
      var front := Hosts(aliases[..n - 1]);
      JoinSnoc(front, h, Or);
      AppendTerminated(prev, Join(front, Or), h, Or);
    }
  }

  /** With no empty alias the rule is Host(`a1`) || … || Host(`an`). */
  lemma HostRulesAllNonEmpty(aliases: seq<string>)
    requires forall i :: 0 <= i < |aliases| ==> aliases[i] != ""
    ensures HostRules(aliases) == Join(Hosts(aliases), Or)
  {
    var m := |aliases|;
    if m > 0 {
      var h := Host(aliases[m - 1]);
      assert RulePiece(aliases, m - 1) == h;
      assert HostRules(aliases) == HostRulesUpTo(aliases, m - 1) + h;
      if m == 1 {
        assert Hosts(aliases) == [h];
      } else {
        HostRulesUpToAllNonEmpty(aliases, m - 1);
        var front := Hosts(aliases[..m - 1]);
        HostsPrefix(aliases, m);
        assert aliases[..m] == aliases;
        JoinSnoc(front, h, Or);
      }
    }
  }

  lemma {:induction false} HostRulesUpToEndsWithOr(aliases: seq<string>, n: nat)
    requires n < |aliases|
    requires exists j :: 0 <= j < n && aliases[j] != ""
    ensures EndsWith(HostRulesUpTo(aliases, n), Or)
    decreases n
  {
    var prev := HostRulesUpTo(aliases, n - 1);
    if aliases[n - 1] != "" {
      assert HostRulesUpTo(aliases, n) == prev + (Host(aliases[n - 1]) + Or);
    } else {
      assert HostRulesUpTo(aliases, n) == prev;
      var j :| 0 <= j < n && aliases[j] != "";
      assert j < n - 1;
      HostRulesUpToEndsWithOr(aliases, n - 1);
    }
  }

  /** The non-empty aliases, in order. */
  function NonEmpty(aliases: seq<string>): (r: seq<string>)
    ensures |r| <= |aliases|
    ensures forall i :: 0 <= i < |r| ==> r[i] != ""
  {
    if aliases == [] then []
    else
      var front := NonEmpty(aliases[..|aliases| - 1]);
      if aliases[|aliases| - 1] == "" then front else front + [aliases[|aliases| - 1]]
  }

  lemma HostsSnoc(front: seq<string>, a: string)
    ensures Hosts(front + [a]) == Hosts(front) + [Host(a)]
  {
  }

  /**
   * Before the last alias, the buffer holds the Host rules of the non-empty
   * aliases so far, each followed by " || "; empty aliases are skipped.
   */
  lemma {:induction false} HostRulesUpToSkipsEmpty(aliases: seq<string>, n: nat)
    requires n < |aliases|
    ensures var f := NonEmpty(aliases[..n]);
      HostRulesUpTo(aliases, n) == if f == [] then "" else Join(Hosts(f), Or) + Or
    decreases n
  {
    if n == 0 {
      assert aliases[..0] == [];
    } else {
      var a := aliases[n - 1];
      assert aliases[..n][..n - 1] == aliases[..n - 1];
      var front := NonEmpty(aliases[..n - 1]);
      var prev := HostRulesUpTo(aliases, n - 1);
      HostRulesUpToSkipsEmpty(aliases, n - 1);
      if a != "" {
        assert NonEmpty(aliases[..n]) == front + [a];
        assert HostRulesUpTo(aliases, n) == prev + (Host(a) + Or);
        HostsSnoc(front, a);
        if front == [] {
          assert Hosts([a]) == [Host(a)];
        } else {
          JoinSnoc(Hosts(front), Host(a), Or);
          AppendTerminated(prev, Join(Hosts(front), Or), Host(a), Or);
        }
      }
    }
  }

  /**
   * The rule is the " || "-join of the Host rules of the non-empty aliases;
   * when the last alias is empty but an earlier one is not, a dangling " || "
   * follows.
   */
  lemma HostRulesSkipsEmpty(aliases: seq<string>)
    requires |aliases| > 0
    ensures var m := |aliases|;
      var f := NonEmpty(aliases[..m - 1]);
      HostRules(aliases) ==
        if aliases[m - 1] == "" then (if f == [] then "" else Join(Hosts(f), Or) + Or)
        else Join(Hosts(f + [aliases[m - 1]]), Or)
  {
    var m := |aliases|;
    HostRulesUpToSkipsEmpty(aliases, m - 1);
    if aliases[m - 1] != "" {
      HostRulesLastNonEmpty(aliases);
    } else {
      assert RulePiece(aliases, m - 1) == "";
    }
  }

  lemma HostRulesLastNonEmpty(aliases: seq<string>)
    requires |aliases| > 0 && aliases[|aliases| - 1] != ""
    ensures HostRules(aliases) == Join(Hosts(NonEmpty(aliases[..|aliases| - 1]) + [aliases[|aliases| - 1]]), Or)
  {
    var m := |aliases|;
    var a := aliases[m - 1];
    var front := NonEmpty(aliases[..m - 1]);
    var prev := HostRulesUpTo(aliases, m - 1);
    HostRulesUpToSkipsEmpty(aliases, m - 1);
    assert RulePiece(aliases, m - 1) == Host(a);
    assert HostRules(aliases) == prev + Host(a);
    HostsSnoc(front, a);
    if front == [] {
      assert Hosts([a]) == [Host(a)];
    } else {
      JoinSnoc(Hosts(front), Host(a), Or);
    }
  }

  /** An empty last alias after a non-empty one leaves a dangling " || " after the joined rules. */
  lemma HostRulesTrailingOr(aliases: seq<string>)
    requires |aliases| > 0 && aliases[|aliases| - 1] == ""
    requires exists j :: 0 <= j < |aliases| - 1 && aliases[j] != ""
    ensures EndsWith(HostRules(aliases), Or)
    ensures HostRules(aliases) == Join(Hosts(NonEmpty(aliases[..|aliases| - 1])), Or) + Or
  {
    HostRulesUpToEndsWithOr(aliases, |aliases| - 1);
    HostRulesSkipsEmpty(aliases);
  }

  /** Skipping an empty alias in the middle: ["a", "", "b"] gives Host(`a`) || Host(`b`). */
  lemma MiddleEmptyAliasSkipped(a: string, b: string)
    requires a != "" && b != ""
    ensures HostRules([a, "", b]) == Host(a) + Or + Host(b)
  {
    var aliases := [a, "", b];
    assert aliases[..2][..1] == [a];
    assert NonEmpty([a]) == [a];
    assert NonEmpty(aliases[..2]) == [a];
    HostRulesSkipsEmpty(aliases);
    assert Hosts([a, b]) == [Host(a), Host(b)];
  }

  lemma {:induction false} HostRulesUpToEmptyIff(aliases: seq<string>, n: nat)
    requires n <= |aliases|
    ensures HostRulesUpTo(aliases, n) == "" <==> forall j :: 0 <= j < n ==> aliases[j] == ""
    decreases n
  {
    if n > 0 {
      HostRulesUpToEmptyIff(aliases, n - 1);
      assert aliases[n - 1] != "" ==> |RulePiece(aliases, n - 1)| > 0;
    }
  }

  /** The rule is empty exactly when every alias is. */
  lemma HostRulesEmptyIff(aliases: seq<string>)
    ensures HostRules(aliases) == "" <==> forall j :: 0 <= j < |aliases| ==> aliases[j] == ""
  {
    HostRulesUpToEmptyIff(aliases, |aliases|);
  }

  function RuleLabel(deployment: string, tail: string, rule: string): Labels
  {
    if rule != "" then map[RouterKey(deployment, tail) := rule] else map[]
  }

  /** The labels TraefikRouterLabels returns. */
  function RouterLabels(deployment: string, aliases: seq<string>, secure: bool): Labels
  {
    var rule := HostRules(aliases);
    var insecure := RuleLabel(deployment, InsecureRule, rule)[RouterKey(deployment, InsecureEntrypoints) := "web"];
    if !secure then insecure
    else insecure[RouterKey(deployment, SecureTls) := "true"]
                 [RouterKey(deployment, SecureEntrypoints) := "web-secure"]
                 [RouterKey(deployment, SecureCertResolver) := "lets-encrypt"]
         + RuleLabel(deployment, SecureRule, rule)
  }

  /** TraefikRouterLabels: the host rule is built in a buffer, one alias at a time. */
  method TraefikRouterLabels(deployment: string, aliases: seq<string>, secure: bool) returns (labels: Labels)
    ensures labels == RouterLabels(deployment, aliases, secure)
  {
    var hostRules := "";
    var i := 0;
    while i < |aliases|
      invariant 0 <= i <= |aliases|
      invariant hostRules == HostRulesUpTo(aliases, i)
    {
      var alias := aliases[i];
      if alias != "" {
        if i == |aliases| - 1 {
          hostRules := hostRules + Host(alias);
        } else {
          hostRules := hostRules + (Host(alias) + Or);
        }
      }
      i := i + 1;
    }
    labels := map[];
    if hostRules != "" {
      labels := labels[RouterKey(deployment, InsecureRule) := hostRules];
    }
    labels := labels[RouterKey(deployment, InsecureEntrypoints) := "web"];
    if secure {
      labels := labels[RouterKey(deployment, SecureTls) := "true"];
      labels := labels[RouterKey(deployment, SecureEntrypoints) := "web-secure"];
      labels := labels[RouterKey(deployment, SecureCertResolver) := "lets-encrypt"];
      if hostRules != "" {
        labels := labels[RouterKey(deployment, SecureRule) := hostRules];
      }
    }
  }

  /** Without TLS: only the insecure router, entering on "web", with a rule exactly when some alias is non-empty. */
  lemma InsecureRouterLabels(deployment: string, aliases: seq<string>)
    ensures var labels := RouterLabels(deployment, aliases, false);
      && labels.Keys == {RouterKey(deployment, InsecureEntrypoints)}
           + (if HostRules(aliases) != "" then {RouterKey(deployment, InsecureRule)} else {})
      && labels[RouterKey(deployment, InsecureEntrypoints)] == "web"
      && (RouterKey(deployment, InsecureRule) in labels <==> exists j :: 0 <= j < |aliases| && aliases[j] != "")
      && (RouterKey(deployment, InsecureRule) in labels ==> labels[RouterKey(deployment, InsecureRule)] == HostRules(aliases))
  {
    HostRulesEmptyIff(aliases);
    RouterKeysDistinct(deployment, InsecureRule, InsecureEntrypoints);
  }

  /**
   * With TLS: the secure router enters on "web-secure" with the
   * lets-encrypt resolver, and matches the same rule as the insecure one.
   */
  lemma SecureRouterLabels(deployment: string, aliases: seq<string>)
    ensures var labels := RouterLabels(deployment, aliases, true);
      && labels.Keys == {RouterKey(deployment, InsecureEntrypoints), RouterKey(deployment, SecureTls),
                         RouterKey(deployment, SecureEntrypoints), RouterKey(deployment, SecureCertResolver)}
           + (if HostRules(aliases) != "" then {RouterKey(deployment, InsecureRule), RouterKey(deployment, SecureRule)} else {})
      && labels[RouterKey(deployment, InsecureEntrypoints)] == "web"
      && labels[RouterKey(deployment, SecureTls)] == "true"
      && labels[RouterKey(deployment, SecureEntrypoints)] == "web-secure"
      && labels[RouterKey(deployment, SecureCertResolver)] == "lets-encrypt"
      && (RouterKey(deployment, SecureRule) in labels <==> exists j :: 0 <= j < |aliases| && aliases[j] != "")
      && (RouterKey(deployment, SecureRule) in labels <==> RouterKey(deployment, InsecureRule) in labels)
      && (RouterKey(deployment, SecureRule) in labels ==>
            labels[RouterKey(deployment, SecureRule)] == labels[RouterKey(deployment, InsecureRule)] == HostRules(aliases))
  {
    HostRulesEmptyIff(aliases);
    RouterKeysDistinct(deployment, InsecureRule, InsecureEntrypoints);
    RouterKeysDistinct(deployment, InsecureRule, SecureTls);
    RouterKeysDistinct(deployment, InsecureRule, SecureEntrypoints);
    RouterKeysDistinct(deployment, InsecureRule, SecureCertResolver);
    RouterKeysDistinct(deployment, InsecureRule, SecureRule);
    RouterKeysDistinct(deployment, InsecureEntrypoints, SecureTls);
    RouterKeysDistinct(deployment, InsecureEntrypoints, SecureEntrypoints);
    RouterKeysDistinct(deployment, InsecureEntrypoints, SecureCertResolver);
    RouterKeysDistinct(deployment, InsecureEntrypoints, SecureRule);
    RouterKeysDistinct(deployment, SecureTls, SecureEntrypoints);
    RouterKeysDistinct(deployment, SecureTls, SecureCertResolver);
    RouterKeysDistinct(deployment, SecureEntrypoints, SecureCertResolver);
  }

  /** Two aliases become Host(`a.com`) || Host(`b.com`). */
  lemma RouterRuleExample()
    ensures RouterLabels("api", ["a.com", "b.com"], false)[RouterKey("api", InsecureRule)]
         == "Host(`a.com`) || Host(`b.com`)"
  {
    var aliases := ["a.com", "b.com"];
    TwoAliasRule("a.com", "b.com");
    InsecureRouterLabels("api", aliases);
  }

  lemma TwoAliasRule(a: string, b: string)
    requires a != "" && b != ""
    ensures HostRules([a, b]) == Host(a) + Or + Host(b)
  {
    var aliases := [a, b];
    assert RulePiece(aliases, 0) == Host(a) + Or;
    assert RulePiece(aliases, 1) == Host(b);
    assert HostRulesUpTo(aliases, 1) == "" + (Host(a) + Or);
  }

  // ---------------------------------------------------------------------
  // Services
  // ---------------------------------------------------------------------

  /** The service a container port gets: <deployment>-<port>. */
  function PortService(deployment: string, port: string): string
  {
    deployment + "-" + port
  }

  function PortKey(deployment: string, port: string): string
  {
    ServiceKey(PortService(deployment, port), ServerPort)
  }

  function SchemeKey(deployment: string, port: string): string
  {
    ServiceKey(PortService(deployment, port), ServerScheme)
  }

  lemma PortServiceKeyInjective(deployment: string, p1: string, p2: string, tail: string)
    requires ServiceKey(PortService(deployment, p1), tail) == ServiceKey(PortService(deployment, p2), tail)
    ensures p1 == p2
  {
    var k1 := ServiceKey(PortService(deployment, p1), tail);
    var k2 := ServiceKey(PortService(deployment, p2), tail);
    var n := |ServicesPrefix + deployment + "-"|;
    assert k1[n..n + |p1|] == p1;
    assert k2[n..n + |p2|] == p2;
  }

  /** A port label and a scheme label never share a key: "…port" and "…scheme" end differently. */
  lemma PortKeyIsNotSchemeKey(s1: string, s2: string)
    ensures ServiceKey(s1, ServerPort) != ServiceKey(s2, ServerScheme)
  {
    var k1 := ServiceKey(s1, ServerPort);
    var k2 := ServiceKey(s2, ServerScheme);
    assert k1[|k1| - 1] == ServerPort[|ServerPort| - 1] == 't';
    assert k2[|k2| - 1] == ServerScheme[|ServerScheme| - 1] == 'e';
  }

  lemma PortKeysInjective(deployment: string)
    ensures forall p1, p2 :: PortKey(deployment, p1) == PortKey(deployment, p2) ==> p1 == p2
  {
    forall p1, p2 | PortKey(deployment, p1) == PortKey(deployment, p2)
      ensures p1 == p2
    {
      PortServiceKeyInjective(deployment, p1, p2, ServerPort);
    }
  }

  function PortMap(deployment: string, ports: set<string>): Labels
  {
    PortKeysInjective(deployment);
    map p | p in ports :: PortKey(deployment, p) := p
  }

  function SchemeMap(deployment: string, ports: set<string>): Labels
  {
    map p | p in ports :: SchemeKey(deployment, p) := "http"
  }

  /** One port and one scheme label for each distinct port number. */
  function PortLabels(deployment: string, ports: set<string>): Labels
  {
    PortMap(deployment, ports) + SchemeMap(deployment, ports)
  }

  /** The labels TraefikServiceLabels returns. */
  function ServiceLabels(deployment: string, ports: map<string, string>, targetPort: string): Labels
  {
    if targetPort != "" then
      map[ServiceKey(deployment, ServerPort) := targetPort, ServiceKey(deployment, ServerScheme) := "http"]
    else PortLabels(deployment, ports.Values)
  }

  lemma PortMapMembers(deployment: string, ports: set<string>)
    ensures var m := PortMap(deployment, ports);
      && (forall p :: PortKey(deployment, p) in m <==> p in ports)
      && (forall p :: p in ports ==> m[PortKey(deployment, p)] == p)
      && (forall k :: k in m ==> exists p :: p in ports && k == PortKey(deployment, p))
  {
    PortKeysInjective(deployment);
  }

  lemma SchemeMapMembers(deployment: string, ports: set<string>)
    ensures var m := SchemeMap(deployment, ports);
      && (forall p :: p in ports ==> SchemeKey(deployment, p) in m && m[SchemeKey(deployment, p)] == "http")
      && (forall k :: k in m ==> exists p :: p in ports && k == SchemeKey(deployment, p))
  {
  }

  /** labels holds a port and a scheme label for each port in the set, and nothing else. */
  predicate IsPortLabels(deployment: string, ports: set<string>, labels: Labels)
  {
    && (forall p :: p in ports ==> PortKey(deployment, p) in labels && labels[PortKey(deployment, p)] == p)
    && (forall p :: p in ports ==> SchemeKey(deployment, p) in labels && labels[SchemeKey(deployment, p)] == "http")
    && (forall k :: k in labels ==> exists p :: p in ports && (k == PortKey(deployment, p) || k == SchemeKey(deployment, p)))
  }

  lemma PortLabelsMembers(deployment: string, ports: set<string>)
    ensures IsPortLabels(deployment, ports, PortLabels(deployment, ports))
  {
    PortMapMembers(deployment, ports);
    SchemeMapMembers(deployment, ports);
    var sm := SchemeMap(deployment, ports);
    forall p | p in ports
      ensures PortKey(deployment, p) !in sm
    {
      if PortKey(deployment, p) in sm {
        var q :| q in ports && PortKey(deployment, p) == SchemeKey(deployment, q);
        PortKeyIsNotSchemeKey(PortService(deployment, p), PortService(deployment, q));
      }
    }
  }

  /** The port labels of a set of ports are determined by the set. */
  lemma IsPortLabelsUnique(deployment: string, ports: set<string>, l1: Labels, l2: Labels)
    requires IsPortLabels(deployment, ports, l1) && IsPortLabels(deployment, ports, l2)
    ensures l1 == l2
  {
    forall k | k in l1
      ensures k in l2 && l1[k] == l2[k]
    {
      var p :| p in ports && (k == PortKey(deployment, p) || k == SchemeKey(deployment, p));
    }
    forall k | k in l2
      ensures k in l1
    {
      var p :| p in ports && (k == PortKey(deployment, p) || k == SchemeKey(deployment, p));
    }
    assert l1.Keys == l2.Keys;
  }

  /** One more entry of the ports map: its port's two labels are written. */
  lemma IsPortLabelsAdd(deployment: string, seen: set<string>, labels: Labels, p: string)
    requires IsPortLabels(deployment, seen, labels)
    ensures IsPortLabels(deployment, seen + {p},
                         labels[PortKey(deployment, p) := p][SchemeKey(deployment, p) := "http"])
  {
    var next := labels[PortKey(deployment, p) := p][SchemeKey(deployment, p) := "http"];
    forall q | q in seen + {p}
      ensures PortKey(deployment, q) in next && next[PortKey(deployment, q)] == q
    {
      PortKeyIsNotSchemeKey(PortService(deployment, q), PortService(deployment, p));
      if q != p && PortKey(deployment, q) == PortKey(deployment, p) {
        PortServiceKeyInjective(deployment, q, p, ServerPort);
      }
    }
    forall q | q in seen + {p}
      ensures SchemeKey(deployment, q) in next && next[SchemeKey(deployment, q)] == "http"
    {
      PortKeyIsNotSchemeKey(PortService(deployment, p), PortService(deployment, q));
    }
  }

  /** TraefikServiceLabels: the ports map is walked entry by entry; its keys are not used. */
  method TraefikServiceLabels(deployment: string, ports: map<string, string>, targetPort: string) returns (labels: Labels)
    ensures labels == ServiceLabels(deployment, ports, targetPort)
  {
    labels := map[];
    if targetPort != "" {
      labels := labels[ServiceKey(deployment, ServerPort) := targetPort];
      labels := labels[ServiceKey(deployment, ServerScheme) := "http"];
    } else {
      var todo := ports.Keys;
      ghost var seen: set<string> := {};
      while todo != {}
        invariant todo <= ports.Keys
        invariant seen == set k | k in ports && k !in todo :: ports[k]
        invariant IsPortLabels(deployment, seen, labels)
        decreases |todo|
      {
        var k :| k in todo;
        var containerPort := ports[k];
        IsPortLabelsAdd(deployment, seen, labels, containerPort);
        labels := labels[PortKey(deployment, containerPort) := containerPort];
        labels := labels[SchemeKey(deployment, containerPort) := "http"];
        todo := todo - {k};
        seen := seen + {containerPort};
      }
      assert seen == ports.Values;
      PortLabelsMembers(deployment, ports.Values);
      IsPortLabelsUnique(deployment, ports.Values, labels, PortLabels(deployment, ports.Values));
    }
  }

  /** With a target port: exactly the two labels of the deployment's own service; the ports map is ignored. */
  lemma TargetPortServiceLabels(deployment: string, ports: map<string, string>, targetPort: string)
    requires targetPort != ""
    ensures var labels := ServiceLabels(deployment, ports, targetPort);
      && labels.Keys == {ServiceKey(deployment, ServerPort), ServiceKey(deployment, ServerScheme)}
      && |labels| == 2
      && labels[ServiceKey(deployment, ServerPort)] == targetPort
      && labels[ServiceKey(deployment, ServerScheme)] == "http"
      && forall other: map<string, string> :: ServiceLabels(deployment, other, targetPort) == labels
  {
    PortKeyIsNotSchemeKey(deployment, deployment);
  }

  /**
   * Without a target port: a port and a scheme label for each distinct port
   * value, nothing else; the map's keys play no part.
   */
  lemma PortServiceLabels(deployment: string, ports: map<string, string>)
    ensures IsPortLabels(deployment, ports.Values, ServiceLabels(deployment, ports, ""))
    ensures ServiceLabels(deployment, ports, "") == map[] <==> ports == map[]
    ensures forall other: map<string, string> :: other.Values == ports.Values ==>
      ServiceLabels(deployment, other, "") == ServiceLabels(deployment, ports, "")
  {
    PortLabelsMembers(deployment, ports.Values);
    NoPortsNoLabels(deployment, ports, ServiceLabels(deployment, ports, ""));
  }

  lemma NoPortsNoLabels(deployment: string, ports: map<string, string>, labels: Labels)
    requires IsPortLabels(deployment, ports.Values, labels)
    ensures labels == map[] <==> ports == map[]
  {
    if ports != map[] {
      var k :| k in ports;
      assert ports[k] in ports.Values;
      assert PortKey(deployment, ports[k]) in labels;
    } else {
      assert ports.Values == {};
      assert labels.Keys == {};
    }
  }

  // ---------------------------------------------------------------------
  // Middlewares
  // ---------------------------------------------------------------------

  const RateLimitSuffix: string := "-ratelimit"
  const RedirectPrefix: string := Middlewares.RedirectMiddleware + ","

  /** The ranged-over map written key by key into the labels built so far. */
  method MergeLabels(into: Labels, from: Labels) returns (merged: Labels)
    ensures merged == into + from
  {
    merged := into;
    var todo := from.Keys;
    while todo != {}
      invariant todo <= from.Keys
      invariant merged.Keys == into.Keys + (from.Keys - todo)
      invariant forall k :: k in merged ==> merged[k] == if k in from && k !in todo then from[k] else into[k]
      decreases |todo|
    {
      var k :| k in todo;
      merged := merged[k := from[k]];
      todo := todo - {k};
    }
  }

  /** The middlewares attached to the routers, in order. */
  function MiddlewareChain(deployment: string, secured: bool): seq<string>
  {
    (if secured then [Middlewares.RedirectMiddleware] else []) + [deployment + RateLimitSuffix]
  }

  /** The labels TraefikMiddlewareLabels returns; the rate-limit labels come from the caller. */
  function MiddlewareLabels(deployment: string, secured: bool, rateLimit: nat,
                            rateLimitLabels: (string, nat) -> Labels): Labels
  {
    var redirect := if secured then Middlewares.RedirectToHTTPSLabels(deployment) else map[];
    var mw := Join(MiddlewareChain(deployment, secured), ",");
    (redirect + rateLimitLabels(deployment, rateLimit))
      [RouterKey(deployment, InsecureMiddlewares) := mw]
      [RouterKey(deployment, SecureMiddlewares) := ReplaceFirst(mw, RedirectPrefix, " ")]
  }

  /** TraefikMiddlewareLabels */
  method TraefikMiddlewareLabels(deployment: string, secured: bool, rateLimit: nat,
                                 rateLimitLabels: (string, nat) -> Labels) returns (labels: Labels)
    ensures labels == MiddlewareLabels(deployment, secured, rateLimit, rateLimitLabels)
  {
    labels := map[];
    var allMiddlewares: seq<string> := [];
    ghost var redirect: Labels := map[];
    if secured {
      labels := MergeLabels(labels, Middlewares.RedirectToHTTPSLabels(deployment));
      redirect := Middlewares.RedirectToHTTPSLabels(deployment);
      MergeIntoEmpty(redirect);
      allMiddlewares := allMiddlewares + [Middlewares.RedirectMiddleware];
    }
    assert labels == redirect;
    labels := MergeLabels(labels, rateLimitLabels(deployment, rateLimit));
    allMiddlewares := allMiddlewares + [deployment + RateLimitSuffix];
    assert allMiddlewares == MiddlewareChain(deployment, secured);
    var mw := Join(allMiddlewares, ",");
    labels := labels[RouterKey(deployment, InsecureMiddlewares) := mw];
    labels := labels[RouterKey(deployment, SecureMiddlewares) := ReplaceFirst(mw, RedirectPrefix, " ")];
  }

  lemma MergeIntoEmpty(m: Labels)
    ensures map[] + m == m
  {
  }

  /**
   * Both router middleware labels are always written. The insecure router
   * gets the whole chain, replacing the "redirect-to-https@docker" value the
   * redirect labels put there; the secure router gets the chain with
   * "redirect-to-https," replaced by a single space.
   */
  lemma MiddlewareRouterLabels(deployment: string, secured: bool, rateLimit: nat,
                               rateLimitLabels: (string, nat) -> Labels)
    ensures var labels := MiddlewareLabels(deployment, secured, rateLimit, rateLimitLabels);
      && RouterKey(deployment, InsecureMiddlewares) in labels
      && RouterKey(deployment, SecureMiddlewares) in labels
      && labels[RouterKey(deployment, InsecureMiddlewares)]
           == (if secured then RedirectPrefix + deployment + RateLimitSuffix else deployment + RateLimitSuffix)
      && (secured ==> labels[RouterKey(deployment, SecureMiddlewares)] == " " + deployment + RateLimitSuffix)
      && (!secured && (forall i: nat :: !OccursAt(deployment + RateLimitSuffix, RedirectPrefix, i)) ==>
            labels[RouterKey(deployment, SecureMiddlewares)] == deployment + RateLimitSuffix)
  {
    RouterKeysDistinct(deployment, InsecureMiddlewares, SecureMiddlewares);
    var tail := deployment + RateLimitSuffix;
    if secured {
      assert MiddlewareChain(deployment, secured) == [Middlewares.RedirectMiddleware, tail];
      assert Join([Middlewares.RedirectMiddleware, tail], ",") == RedirectPrefix + tail;
      ReplaceFirstAtStart(RedirectPrefix, tail, " ");
    } else {
      assert MiddlewareChain(deployment, secured) == [tail];
      if forall i: nat :: !OccursAt(tail, RedirectPrefix, i) {
        ReplaceFirstNoOccurrence(tail, RedirectPrefix, " ");
      }
    }
  }

  /**
   * Every other label comes from the rate-limit labels or, when secured,
   * the redirect labels, the rate-limit labels winning on a shared key.
   */
  lemma MiddlewareOtherLabels(deployment: string, secured: bool, rateLimit: nat,
                              rateLimitLabels: (string, nat) -> Labels, k: string)
    requires k != RouterKey(deployment, InsecureMiddlewares) && k != RouterKey(deployment, SecureMiddlewares)
    ensures var labels := MiddlewareLabels(deployment, secured, rateLimit, rateLimitLabels);
      var limit := rateLimitLabels(deployment, rateLimit);
      var redirect := Middlewares.RedirectToHTTPSLabels(deployment);
      && (k in labels <==> k in limit || (secured && k in redirect))
      && (k in limit ==> labels[k] == limit[k])
      && (secured && k in redirect && k !in limit ==> labels[k] == redirect[k])
  {
  }
}
