# krane core, modelled in Dafny

This project models the core of krane, a container deployment tool. It covers five parts:

- **The embedded key-value store.** It holds named buckets. Each bucket maps keys to byte values in key order. The operations are put, get, list all, a key-range scan, remove, and the creation of the fixed buckets when the store is opened.
- **Per-deployment secrets.** These cover the key validator, the alias a secret is referenced by, and the name of the deployment's secrets bucket. They also cover add, get, list, redacted list and delete over the store.
- **Deployment configurations.** These are validated, given their defaults and kept in the deployments bucket under their names.
- **Traefik label synthesis.** Traefik is the reverse proxy. The model builds the router labels from a deployment's aliases and the service labels from its ports. It also builds the middleware chain: the HTTPS redirect and the rate limit.
- **Job construction.** A deployment action (UP or DOWN) becomes a container-create or container-delete job.

Each stateful operation is an imperative method. The store is a class whose methods change its bucket map. Each method is proved against a specification function of the buckets, and lemmas about those functions state what the system promises. Examples are a value written and then read back, ranges scanned in key order, an invalid secret key never written, and the exact labels produced for each input.

Key order is lexicographic order on the key's characters. Unicode code-point order equals the byte order of UTF-8, so this is the byte-wise comparison the store uses.

The following are parameters of the model, not parts of it:

- the encoding of stored records, a `Codec` with an encode and a partial decode;
- the deployment validation and defaulting rules;
- the rate-limit label builder;
- the environment lookup and the identifier generator.

The lemmas that need the encoding to round-trip assume it explicitly.

Files:

- `wrappers.dfy`: `Option` and the error values.
- `lex_order.dfy`: the key order, sorted key listings and the least-key cursor step.
- `codec.dfy`: the record encoding.
- `store.dfy`: the bolt store and the singleton registry.
- `strings.dfy`: the string functions used.
- `secrets.dfy`: secrets.
- `config.dfy`: deployment configurations.
- `labels.dfy`: the Traefik label keys.
- `middlewares.dfy`: the redirect middleware.
- `traefik.dfy`: the router, service and middleware labels.
- `job.dfy`: jobs.

## Model

| member | source | states |
|---|---|---|
| LexOrder.LexLeReflexive | internal/store/bolt.go:161 | every key is at or below itself under the byte-wise key comparison |
| LexOrder.LexLeAntisymmetric | internal/store/bolt.go:161 | two keys each at or below the other are equal |
| LexOrder.LexLeTransitive | internal/store/bolt.go:161 | the key comparison is transitive |
| LexOrder.LexLeTotal | internal/store/bolt.go:161 | any two keys are comparable |
| LexOrder.SortedKeys | internal/store/bolt.go:134-137 | the keys of a bucket listed once each in strictly ascending order, the order the bucket is walked in |
| LexOrder.SortedUnique | internal/store/bolt.go:134-137 | two strictly ascending listings of the same keys are the same listing |
| LexOrder.LeastKey | internal/store/bolt.go:159-161 | the cursor step yields the least remaining key |
| Store.ValueListed | internal/store/bolt.go:127-147 | every stored value appears in the key-ordered listing at its key's position |
| Store.RangeEmptyWhenInverted | internal/store/bolt.go:159-163 | a range whose lower bound lies above its upper bound holds no key and lists nothing |
| Store.FullRangeIsAll | internal/store/bolt.go:152-169 | a range from the empty key to a bound above every key lists the whole bucket |
| Store.BootstrapCreatesFixedBuckets | internal/store/bolt.go:66-72 | after bootstrap the authentication, deployments and sessions buckets exist; existing buckets keep their contents and new ones are empty |
| Store.BoltStore.Open | internal/store/bolt.go:55 | opening the file gives a store holding the buckets already on disk, at the given path |
| Store.BoltStore.CreateBkts | internal/store/bolt.go:77-94 | each name is created in turn; an empty or existing name fails, the failure is only logged, and the loop goes on |
| Store.BoltStore.CreateBucket | internal/store/bolt.go:82 | a new empty bucket; an empty name or an existing bucket is an error and changes nothing |
| Store.BoltStore.Put | internal/store/bolt.go:98-107 | a missing bucket is an error and changes nothing; an empty key is refused; otherwise exactly that key of that bucket is set |
| Store.BoltStore.Get | internal/store/bolt.go:109-125 | never an error; a value exactly when bucket and key exist, and then the stored one; a missing bucket reads as a missing key |
| Store.BoltStore.GetAll | internal/store/bolt.go:127-147 | a missing bucket is an error with no values; otherwise every value once, in ascending key order |
| Store.BoltStore.GetInRange | internal/store/bolt.go:152-169 | never an error; a missing bucket gives nothing; otherwise exactly the values whose keys lie between the bounds, inclusive, ascending |
| Store.BoltStore.Remove | internal/store/bolt.go:171-178 | never an error; a missing bucket changes nothing; otherwise only that key is removed |
| Store.Registry.constructor | internal/store/bolt.go:26-28 | no store is open at start |
| Store.Registry.New | internal/store/bolt.go:41-75 | an open store is returned as is; otherwise the path defaults to /tmp/krane.db, the store becomes the singleton and gets the fixed buckets; a failed open yields no store |
| Strings.ToUpper | internal/deployment/secrets/secrets.go:118 | same length, each character upper-cased |
| Strings.ToLower | internal/deployment/secrets/secrets.go:144 | same length, each character lower-cased |
| Strings.ReplaceAllChar | internal/deployment/secrets/secrets.go:119 | same length, each '-' replaced and every other character kept |
| Strings.JoinSnoc | internal/proxy/traefik.go:90 | joining one more part appends the separator and that part |
| Strings.ReplaceFirstAtStart | internal/proxy/traefik.go:92 | when the text starts with the pattern, that occurrence is the one replaced |
| Strings.ReplaceFirstNoOccurrence | internal/proxy/traefik.go:92 | without an occurrence of the pattern the text is unchanged |
| Secrets.RunAfterFirst | internal/deployment/secrets/secrets.go:123-139 | after an alphanumeric first character the pattern accepts exactly key characters ending in an alphanumeric one |
| Secrets.ValidSecretKeyIff | internal/deployment/secrets/secrets.go:123-139 | a key is valid iff it is 2 to 50 characters long, starts and ends alphanumeric, and has only alphanumerics, '_' and '-' inside |
| Secrets.InvalidSecretKeyExamples | internal/deployment/secrets/secrets.go:123-139 | "a", "a b", "-ab" and "ab_" are rejected |
| Secrets.ValidSecretKeyExample | internal/deployment/secrets/secrets.go:123-139 | "api-token" is accepted |
| Secrets.ValidUpperCaseKeyExample | internal/deployment/secrets/secrets.go:123-139 | "API_TOKEN" is accepted |
| Secrets.AliasShape | internal/deployment/secrets/secrets.go:117-121 | the alias is '@' then the key with '-' made '_' and letters upper-cased, one character per key character |
| Secrets.AliasOfValidKey | internal/deployment/secrets/secrets.go:117-121 | a valid key's alias has only upper-case letters, digits and '_' after the '@' |
| Secrets.AliasFromShape | internal/deployment/secrets/secrets.go:117-121 | an '@' followed, character for character, by the key upper-cased with '-' turned into '_' is the alias of that key |
| Secrets.AliasExample | internal/deployment/secrets/secrets.go:117-121 | "api-token" has alias "@API_TOKEN" |
| Secrets.AliasNotInjective | internal/deployment/secrets/secrets.go:117-121 | two different valid keys, "api-token" and "API_TOKEN", share one alias |
| Secrets.CollectionNameShape | internal/deployment/secrets/secrets.go:143-145 | the secrets bucket is the lower-cased namespace followed by "-secrets", never empty |
| Secrets.CollectionNameCaseInsensitive | internal/deployment/secrets/secrets.go:143-145 | any two namespaces that agree once lower-cased share one secrets bucket |
| Secrets.Redact | internal/deployment/secrets/secrets.go:115 | the value becomes "<redacted>"; namespace, key and alias are kept |
| Secrets.RedactionHidesValue | internal/deployment/secrets/secrets.go:115 | redaction changes the value unless the value already is "<redacted>" |
| Secrets.AddInvalidKeyWritesNothing | internal/deployment/secrets/secrets.go:24-26 | an invalid key gives the empty secret and an error, and the store is untouched |
| Secrets.AddThenGet | internal/deployment/secrets/secrets.go:28-42 | a valid add returns the secret with its alias, and a later get returns it, replacing any earlier value; other keys and buckets are unchanged |
| Secrets.AddThenGetAll | internal/deployment/secrets/secrets.go:64-82 | after a valid add, a listing without error contains the added secret |
| Secrets.GetAllAllOrNothing | internal/deployment/secrets/secrets.go:71-81 | the listing succeeds iff the bucket exists and every record decodes, then has one secret per record; on error it is empty |
| Secrets.Add | internal/deployment/secrets/secrets.go:23-43 | validates the key, then writes the secret under it in the namespace's bucket; a failed write returns no secret and the error |
| Secrets.Delete | internal/deployment/secrets/secrets.go:46-49 | removes only that key of the namespace's bucket; never an error, even for a missing key or bucket |
| Secrets.CreateCollection | internal/deployment/secrets/secrets.go:52-55 | the store's create-collection operation is applied to the namespace's secrets bucket name; its new buckets and its error are what the call leaves and returns |
| Secrets.DeleteCollection | internal/deployment/secrets/secrets.go:58-61 | the store's delete-collection operation is applied to the namespace's secrets bucket name; its new buckets and its error are what the call leaves and returns |
| Secrets.Get | internal/deployment/secrets/secrets.go:96-112 | a missing key or bucket is a not-found error; otherwise the decoded secret, or none when decoding fails, without error |
| Secrets.GetAll | internal/deployment/secrets/secrets.go:64-82 | every secret in key order, or an empty list and an error when the bucket is missing or a record does not decode |
| Secrets.GetAllRedacted | internal/deployment/secrets/secrets.go:85-93 | as many secrets as the listing, each redacted and otherwise unchanged; an error gives an empty list; the store is not written |
| DeploymentConfig.SaveInvalidWritesNothing | internal/deployment/config/config.go:22-25 | a config failing validation is returned with the error before defaults are applied, and nothing is written |
| DeploymentConfig.SaveThenGet | internal/deployment/config/config.go:21-36 | a valid save stores the defaulted config under its name, and a later get returns it; other names and buckets are unchanged |
| DeploymentConfig.SaveThenGetAll | internal/deployment/config/config.go:66-79 | after a valid save the listing contains the defaulted config |
| DeploymentConfig.GetAllOnePerRecord | internal/deployment/config/config.go:66-79 | a missing bucket gives an empty list and the error; otherwise one config per record, in name order, the zero config for a record that does not decode |
| DeploymentConfig.DeleteThenGet | internal/deployment/config/config.go:38-45 | after delete the name is not found, and every other name reads as before |
| DeploymentConfig.Save | internal/deployment/config/config.go:21-36 | validate, then apply the defaults, then write the defaulted config under its name and return it; a write error is returned |
| DeploymentConfig.Delete | internal/deployment/config/config.go:38-45 | removes only that name's record; the store reports no error |
| DeploymentConfig.Get | internal/deployment/config/config.go:47-64 | a missing name is "Deployment not found" with the zero config; a decode failure is an error with the zero config |
| DeploymentConfig.GetAll | internal/deployment/config/config.go:66-79 | one config per stored record in name order, or an empty list and the store's error |
| Labels.RouterKeysDistinct | internal/proxy/traefik.go:37-47 | router label keys of one deployment with different suffixes differ |
| Middlewares.RouterKeyIsNotMiddlewareKey | internal/proxy/middlewares/middlewares.go:8-11 | no router key coincides with a redirect middleware key |
| Middlewares.RedirectToHTTPSLabels | internal/proxy/middlewares/middlewares.go:5-13 | exactly four labels: the insecure router uses "redirect-to-https@docker", and the redirect goes to scheme https, port 443, permanently |
| Middlewares.RedirectMiddlewareIndependentOfNamespace | internal/proxy/middlewares/middlewares.go:9-11 | the three redirect middleware labels are the same for every namespace |
| Proxy.HostRulesAllNonEmpty | internal/proxy/traefik.go:19-31 | with no empty alias the rule is Host(`a1`) up to Host(`an`), separated by the or-operator |
| Proxy.TwoAliasRule | internal/proxy/traefik.go:19-31 | two non-empty aliases give Host(`a`), the or-operator, then Host(`b`), with no trailing separator |
| Proxy.HostRulesUpToSkipsEmpty | internal/proxy/traefik.go:19-31 | before the last alias, the buffer holds the Host rules of the non-empty aliases so far, each followed by the or-operator; empty aliases add nothing |
| Proxy.HostRulesSkipsEmpty | internal/proxy/traefik.go:19-31 | for any non-empty list of aliases, the rule is the or-join of the Host rules of the non-empty aliases; when the last alias is empty and an earlier one is not, a trailing or-operator follows |
| Proxy.HostRulesLastNonEmpty | internal/proxy/traefik.go:19-31 | with a non-empty last alias the rule is the or-join of the Host rules of the non-empty aliases, with no trailing separator |
| Proxy.HostRulesTrailingOr | internal/proxy/traefik.go:19-31 | an empty last alias after a non-empty one gives the or-join of the non-empty aliases' Host rules followed by a trailing or-operator |
| Proxy.MiddleEmptyAliasSkipped | internal/proxy/traefik.go:19-31 | an empty alias between two non-empty ones is skipped: Host(`a`), the or-operator, Host(`b`) |
| Proxy.HostRulesEmptyIff | internal/proxy/traefik.go:19-38 | the rule is empty exactly when every alias is empty |
| Proxy.TraefikRouterLabels | internal/proxy/traefik.go:16-52 | the alias loop builds the host rule one alias at a time, and the labels are the router labels of that rule |
| Proxy.InsecureRouterLabels | internal/proxy/traefik.go:33-39 | without TLS only the insecure router's labels: entrypoint "web" always, the rule exactly when some alias is non-empty, no secure key |
| Proxy.SecureRouterLabels | internal/proxy/traefik.go:41-49 | with TLS the secure router also gets tls "true", entrypoint "web-secure" and resolver "lets-encrypt"; its rule is present iff the insecure one is, and equal to it |
| Proxy.RouterRuleExample | internal/proxy/traefik.go:16-52 | aliases a.com and b.com give the rule Host(`a.com`), the or-operator, Host(`b.com`) |
| Proxy.PortServiceKeyInjective | internal/proxy/traefik.go:62-63 | different ports give different per-port service keys |
| Proxy.PortKeyIsNotSchemeKey | internal/proxy/traefik.go:62-63 | a port label key never equals a scheme label key |
| Proxy.PortKeysInjective | internal/proxy/traefik.go:62 | the port label key determines the port |
| Proxy.PortLabelsMembers | internal/proxy/traefik.go:60-65 | the per-port labels hold port and scheme "http" for each port and nothing else |
| Proxy.IsPortLabelsUnique | internal/proxy/traefik.go:60-65 | the per-port labels are determined by the set of ports, whatever the order the map is walked in |
| Proxy.IsPortLabelsAdd | internal/proxy/traefik.go:61-64 | one more map entry adds its port's two labels |
| Proxy.TraefikServiceLabels | internal/proxy/traefik.go:54-68 | the labels are the target-port labels, or the per-port labels of the map's values |
| Proxy.TargetPortServiceLabels | internal/proxy/traefik.go:57-59 | with a target port, exactly two labels for the deployment's service: the port and scheme "http"; the ports map plays no part |
| Proxy.PortServiceLabels | internal/proxy/traefik.go:60-65 | without a target port, port and scheme labels for each distinct port value and nothing else; the map's keys play no part; an empty map gives no labels |
| Proxy.NoPortsNoLabels | internal/proxy/traefik.go:60-65 | port labels built for a set of port values are empty exactly when the ports map is empty |
| Proxy.MergeLabels | internal/proxy/traefik.go:77-86 | copying a map into the labels gives their union, the copied map winning on shared keys |
| Proxy.TraefikMiddlewareLabels | internal/proxy/traefik.go:70-95 | the labels are the merged redirect and rate-limit labels plus the two router middleware labels |
| Proxy.MiddlewareRouterLabels | internal/proxy/traefik.go:87-92 | both router middleware labels are always written; the insecure one gets the chain, overriding the redirect value; the secure one gets " d-ratelimit" when secured |
| Proxy.MiddlewareOtherLabels | internal/proxy/traefik.go:76-86 | every other label is a rate-limit label or, when secured, a redirect label, the rate-limit labels winning |
| Service.CreateContainersJob | internal/deployment/service/job.go:33-53 | a ContainerCreate job in the config's namespace, with the retry policy from DEPLOYMENT_RETRY_POLICY, the given id, args exactly config and two empty container lists, running createContainerResources |
| Service.DeleteContainersJob | internal/deployment/service/job.go:55-72 | a ContainerDelete job in the config's namespace, with the same retry setting, args exactly config and an empty current-container list, running deleteContainerResources |
| Service.DispatchIsClosed | internal/deployment/service/job.go:22-31 | exactly UP and DOWN succeed, UP with a create job and DOWN with a delete job; any other action gives the empty job and an unknown-action error |
| Service.JobKindsAgree | internal/deployment/service/job.go:33-72 | both job kinds for a config share namespace, retry policy and config; the delete job's args are the create job's without the new-container list |

## Left out

- The `Store` interface (internal/store/store.go) is not declared as an abstract type, because the model has no interfaces. `Store.BoltStore` carries the data methods of the interface:
  - every data operation takes the bucket first;
  - Get yields at most one value;
  - GetAll and GetInRange yield values without keys;
  - Put and Remove are the only data mutators and return only an error.
- Shutdown and the behaviour of a closed store are left out, because no file is modelled.
- `Store.BoltStore.CreateBkts` and `Store.BoltStore.CreateBucket` are not interface methods. They model the bucket creation inside the bolt store's bootstrap.
- Put, Get, GetAll, GetInRange and Remove act on the package-level singleton rather than their receiver. createBkts acts on its receiver but is only called on the singleton, and Shutdown is left out. Under the singleton these are the same object, so the model acts on the receiver.
- The bolt file is left out: its open options, 30-second timeout, file mode, transactions, locking and logging.
  - A failed open ends the process; the model returns no store instead.
  - The `once` guard is modelled by the registry's null check.
- The store's key and value size limits are left out.
- The store's CreateCollection and DeleteCollection have no body in the modelled files. `Secrets.CreateCollection` and `Secrets.DeleteCollection` take them as `CollectionOp` parameters, so nothing is promised about the buckets they create or drop.
- secrets.go reaches the store through `store.Client()` and config.go through `store.Instance()`. `Instance` returns the bolt singleton. `Client` is not in the modelled files and is taken to return the same store. Both operations receive that store as `db`.
- internal/constants and internal/collection are not part of this model, so no modelled line gives the bucket names. Their values are assumed:
  - "authentication", "deployments", "sessions" for the buckets the bootstrap creates from internal/collection;
  - the secrets suffix "secrets".
- config.go writes to `constants.DeploymentsCollectionName`, and the bootstrap creates the deployments bucket from internal/collection. The model takes these to be the same name, the single `Deployments` constant.
- JSON encoding is left out. It becomes a `Codec` parameter, and lemmas that read back what was written assume it round-trips.
- Secrets.Get, Secrets.GetAll: one partial `Codec.decode` stands for both decode targets. Get decodes into a pointer, so a stored "null" yields no secret. GetAll decodes into a value, so a stored "null" yields the zero secret without error. The model does not tell the two apart.
- DeploymentConfig.GetAll: a record that fails to decode reads as the zero config. A partially filled config, which a type mismatch could produce, is not modelled.
- Strings.ToUpper, Strings.ToLower: only ASCII letters change case. Unicode case mapping is left out; valid secret keys are ASCII.
- Config validation and defaulting are not part of this model. They are the `Rules` parameter.
- The rate-limit labels are not part of this model. They are a function parameter of `Proxy.TraefikMiddlewareLabels`.
- The environment read and the identifier generator are left out. The caller passes the identifier and the environment lookup.
- Service.CreateContainersJob: the freshness of each job's identifier is not modelled, and the container lists are values rather than shared pointers.
- The job queue is left out: dispatching, per-namespace serialisation and retries. The run functions createContainerResources and deleteContainerResources are named, not modelled.
- Secrets.Redact: it works on a value rather than through a pointer. The pointers it redacts through are fresh decoded copies, so no stored data is reachable from them.
- internal/docker/container.go is left out. It only wraps the Docker SDK.
- The HTTP routes, the server and the SSH key handling are left out. They are I/O.
