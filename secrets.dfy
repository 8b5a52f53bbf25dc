/**
 * internal/deployment/secrets: per-deployment secrets kept in a bucket of
 * their own, each reachable from a deployment's environment through an
 * alias derived from its key.
 */
module Secrets {
  import opened Wrappers
  import opened Codec
  import opened Strings
  import opened Store

  datatype Secret = Secret(namespace: string, key: string, value: string, alias: string)

  /** The zero Secret that Add returns beside an invalid-key error. */
  const EmptySecret: Secret := Secret("", "", "", "")

  const SecretsCollectionName: string := "secrets"
  const RedactedValue: string := "<redacted>"
  const MaxKeyLength: nat := 50

  // ---------------------------------------------------------------------
  // Key validation: the pattern ^[a-zA-Z0-9][a-zA-Z0-9_-]*[a-zA-Z0-9]$
  // run as a finite automaton.

  predicate IsAlnum(c: char)
  {
    'a' <= c <= 'z' || 'A' <= c <= 'Z' || '0' <= c <= '9'
  }

  predicate IsKeyChar(c: char)
  {
    IsAlnum(c) || c == '_' || c == '-'
  }

  /** Automaton states: nothing read, one character read, and (two or more read) last alphanumeric or last punctuation. */
  datatype MatchState = Start | First | EndsAlnum | EndsPunct | Dead

  function Step(q: MatchState, c: char): MatchState
  {
    match q
    case Start => if IsAlnum(c) then First else Dead
    case Dead => Dead
    case _ => if IsAlnum(c) then EndsAlnum else if c == '_' || c == '-' then EndsPunct else Dead
  }

  function Run(q: MatchState, s: string): MatchState
    decreases |s|
  {
    if s == [] then q else Run(Step(q, s[0]), s[1..])
  }

  predicate MatchesKeyPattern(s: string)
  {
    Run(Start, s) == EndsAlnum
  }

  /** isValidSecretKey */
  predicate IsValidSecretKey(key: string)
  {
    if |key| <= 1 || |key| > MaxKeyLength then false else MatchesKeyPattern(key)
  }

  lemma {:induction false} RunDead(s: string)
    ensures Run(Dead, s) == Dead
    decreases |s|
  {
    if s != [] {
      RunDead(s[1..]);
    }
  }

  /** After the first character, the automaton accepts exactly the key characters ending in an alphanumeric one. */
  lemma {:induction false} RunAfterFirst(q: MatchState, s: string)
    requires q == First || q == EndsAlnum || q == EndsPunct
    requires s != []
    ensures Run(q, s) == EndsAlnum <==> (forall i :: 0 <= i < |s| ==> IsKeyChar(s[i])) && IsAlnum(s[|s| - 1])
    decreases |s|
  {
    var q' := Step(q, s[0]);
    if |s| == 1 {
      assert Run(q, s) == q';
    } else if q' == Dead {
      RunDead(s[1..]);
    } else {
      RunAfterFirst(q', s[1..]);
      assert forall i :: 1 <= i < |s| ==> s[i] == s[1..][i - 1];
    }
  }

  /** The validator, stated without the automaton. */
  lemma ValidSecretKeyIff(key: string)
    ensures IsValidSecretKey(key) <==>
      && 2 <= |key| <= MaxKeyLength
      && IsAlnum(key[0]) && IsAlnum(key[|key| - 1])
      && forall i :: 0 < i < |key| - 1 ==> IsKeyChar(key[i])
  {
    if 2 <= |key| <= MaxKeyLength {
      if IsAlnum(key[0]) {
        RunAfterFirst(First, key[1..]);
        assert forall i :: 1 <= i < |key| ==> key[i] == key[1..][i - 1];
      } else {
        RunDead(key[1..]);
      }
    }
  }

  /** Keys the validator rejects: too short, a space inside, a bad first or last character. */
  lemma InvalidSecretKeyExamples()
    ensures !IsValidSecretKey("a")
    ensures !IsValidSecretKey("a b")
    ensures !IsValidSecretKey("-ab")
    ensures !IsValidSecretKey("ab_")
  {
    ValidSecretKeyIff("a b");
    assert !IsKeyChar("a b"[1]);
    ValidSecretKeyIff("-ab");
    ValidSecretKeyIff("ab_");
  }

  lemma ValidSecretKeyExample()
    ensures IsValidSecretKey("api-token")
  {
    var s := "api-token";
    assert s[1..] == "pi-token" && s[2..] == "i-token" && s[3..] == "-token" && s[4..] == "token";
    assert s[5..] == "oken" && s[6..] == "ken" && s[7..] == "en" && s[8..] == "n";
  }

  lemma ValidUpperCaseKeyExample()
    ensures IsValidSecretKey("API_TOKEN")
  {
    var t := "API_TOKEN";
    assert t[1..] == "PI_TOKEN" && t[2..] == "I_TOKEN" && t[3..] == "_TOKEN" && t[4..] == "TOKEN";
    assert t[5..] == "OKEN" && t[6..] == "KEN" && t[7..] == "EN" && t[8..] == "N";
  }

  // ---------------------------------------------------------------------
  // Alias and collection name

  /** formatSecretAlias: "@" then the key upper-cased with every '-' made '_'. */
  function FormatSecretAlias(key: string): string
  {
    "@" + ReplaceAllChar(ToUpper(key), '-', '_')
  }

  /** The alias, character by character. */
  lemma AliasShape(key: string)
    ensures var a := FormatSecretAlias(key);
      && |a| == |key| + 1 && a[0] == '@'
      && forall i :: 0 <= i < |key| ==> a[i + 1] == (if key[i] == '-' then '_' else UpperAscii(key[i]))
  {
    var u := ToUpper(key);
    var r := ReplaceAllChar(u, '-', '_');
    var a := "@" + r;
    assert a == FormatSecretAlias(key);
    forall i | 0 <= i < |key|
      ensures a[i + 1] == (if key[i] == '-' then '_' else UpperAscii(key[i]))
    {
      assert a[i + 1] == r[i];
      assert u[i] == UpperAscii(key[i]);
      assert u[i] == '-' <==> key[i] == '-';
    }
  }

  /** The alias character of a key character is an upper-case letter, a digit or '_'. */
  lemma AliasCharOfKeyChar(c: char)
    requires IsKeyChar(c)
    ensures var d := if c == '-' then '_' else UpperAscii(c);
      'A' <= d <= 'Z' || '0' <= d <= '9' || d == '_'
  {
  }

  lemma AliasOfKeyChars(key: string)
    requires forall i :: 0 <= i < |key| ==> IsKeyChar(key[i])
    ensures var a := FormatSecretAlias(key);
      forall i :: 1 <= i < |a| ==> 'A' <= a[i] <= 'Z' || '0' <= a[i] <= '9' || a[i] == '_'
  {
    AliasShape(key);
    var a := FormatSecretAlias(key);
    forall i | 1 <= i < |a|
      ensures 'A' <= a[i] <= 'Z' || '0' <= a[i] <= '9' || a[i] == '_'
    {
      var c := key[i - 1];
      assert a[i] == (if c == '-' then '_' else UpperAscii(c));
      AliasCharOfKeyChar(c);
    }
  }

  /** A valid key's alias is '@' followed by upper-case letters, digits and '_' only. */
  lemma AliasOfValidKey(key: string)
    requires IsValidSecretKey(key)
    ensures var a := FormatSecretAlias(key);
      forall i :: 1 <= i < |a| ==> 'A' <= a[i] <= 'Z' || '0' <= a[i] <= '9' || a[i] == '_'
  {
    ValidSecretKeyIff(key);
    assert forall i :: 0 <= i < |key| ==> IsKeyChar(key[i]);
    AliasOfKeyChars(key);
  }

  /** An alias is pinned down by its shape. */
  lemma AliasFromShape(key: string, alias: string)
    requires |alias| == |key| + 1 && alias[0] == '@'
    requires forall i :: 0 <= i < |key| ==> alias[i + 1] == (if key[i] == '-' then '_' else UpperAscii(key[i]))
    ensures FormatSecretAlias(key) == alias
  {
    AliasShape(key);
    var a := FormatSecretAlias(key);
    forall i | 0 <= i < |alias|
      ensures a[i] == alias[i]
    {
      if i > 0 {
        assert a[(i - 1) + 1] == alias[(i - 1) + 1];
      }
    }
  }

  lemma AliasExample()
    ensures FormatSecretAlias("api-token") == "@API_TOKEN"
  {
    var key, alias := "api-token", "@API_TOKEN";
    forall i | 0 <= i < |key|
      ensures alias[i + 1] == (if key[i] == '-' then '_' else UpperAscii(key[i]))
    {
    }
    AliasFromShape(key, alias);
  }

  /** Two different valid keys can share an alias, so an alias does not always name one secret. */
  lemma AliasNotInjective()
    ensures IsValidSecretKey("api-token") && IsValidSecretKey("API_TOKEN")
    ensures FormatSecretAlias("api-token") == FormatSecretAlias("API_TOKEN")
  {
    ValidSecretKeyExample();
    ValidUpperCaseKeyExample();
    AliasExample();
    AliasShape("API_TOKEN");
  }

  /** getDeploymentCollectionName */
  function CollectionName(namespace: string): string
  {
    ToLower(namespace + "-" + SecretsCollectionName)
  }

  /** The collection name is the lower-cased namespace followed by "-secrets", and is never empty. */
  lemma CollectionNameShape(namespace: string)
    ensures CollectionName(namespace) == ToLower(namespace) + "-secrets"
    ensures CollectionName(namespace) != ""
  {
    var c := CollectionName(namespace);
    var n := |namespace|;
    assert |c| == n + 8;
    forall i | 0 <= i < n + 8
      ensures c[i] == (ToLower(namespace) + "-secrets")[i]
    {
      if i >= n {
        assert (namespace + "-" + SecretsCollectionName)[i] == "-secrets"[i - n];
      }
    }
  }

  /** Namespaces that agree once lower-cased, such as "API" and "api", share one secrets collection. */
  lemma CollectionNameCaseInsensitive(n1: string, n2: string)
    requires ToLower(n1) == ToLower(n2)
    ensures CollectionName(n1) == CollectionName(n2)
  {
    CollectionNameShape(n1);
    CollectionNameShape(n2);
  }

  // ---------------------------------------------------------------------
  // Store-backed operations, each specified by a function of the buckets.

  /** Redact: the value masked, every other field kept. */
  function Redact(s: Secret): (r: Secret)
    ensures r.value == RedactedValue
    ensures r.namespace == s.namespace && r.key == s.key && r.alias == s.alias
  {
    s.(value := RedactedValue)
  }

  /** Redaction hides every value except one equal to the mask itself. */
  lemma RedactionHidesValue(s: Secret)
    ensures Redact(s).value == s.value <==> s.value == RedactedValue
  {
  }

  /** What Add returns and what the buckets hold afterwards. */
  ghost function AddOutcome(codec: Codec<Secret>, bs: Buckets, namespace: string, key: string, value: string): (Option<Secret>, Option<Error>, Buckets)
  {
    if !IsValidSecretKey(key) then (Some(EmptySecret), Some(InvalidSecretName(key)), bs)
    else
      var s := Secret(namespace, key, value, FormatSecretAlias(key));
      var c := CollectionName(namespace);
      if c !in bs then (None, Some(BucketNotFound(c)), bs)
      else (Some(s), None, bs[c := bs[c][key := codec.encode(s)]])
  }

  /** What Get returns: a missing record is an error, an undecodable one a nil secret without error. */
  ghost function GetOutcome(codec: Codec<Secret>, bs: Buckets, namespace: string, key: string): (Option<Secret>, Option<Error>)
  {
    var c := CollectionName(namespace);
    if c !in bs || key !in bs[c] then (None, Some(SecretNotFound(key)))
    else (codec.decode(bs[c][key]), None)
  }

  ghost predicate AllDecode(codec: Codec<Secret>, raw: seq<Bytes>)
  {
    forall i :: 0 <= i < |raw| ==> codec.decode(raw[i]).Some?
  }

  function DecodeAll(codec: Codec<Secret>, raw: seq<Bytes>): seq<Secret>
    requires AllDecode(codec, raw)
  {
    seq(|raw|, i requires 0 <= i < |raw| => codec.decode(raw[i]).value)
  }

  /** What GetAll returns: every secret in key order, or nothing at all. */
  ghost function GetAllOutcome(codec: Codec<Secret>, bs: Buckets, namespace: string): (seq<Secret>, Option<Error>)
  {
    var c := CollectionName(namespace);
    if c !in bs then ([], Some(BucketNotFound(c)))
    else
      var raw := ValuesInKeyOrder(bs[c]);
      if AllDecode(codec, raw) then (DecodeAll(codec, raw), None)
      else ([], Some(DecodeFailed))
  }

  /** Add with an invalid key reports it and writes nothing. */
  lemma AddInvalidKeyWritesNothing(codec: Codec<Secret>, bs: Buckets, namespace: string, key: string, value: string)
    requires !IsValidSecretKey(key)
    ensures AddOutcome(codec, bs, namespace, key, value) == (Some(EmptySecret), Some(InvalidSecretName(key)), bs)
  {
  }

  /** Add then Get gives back the secret, with its alias, replacing any earlier value; nothing else changes. */
  lemma AddThenGet(codec: Codec<Secret>, bs: Buckets, namespace: string, key: string, value: string)
    requires RoundTrips(codec)
    requires IsValidSecretKey(key) && CollectionName(namespace) in bs
    ensures var (secret, err, after) := AddOutcome(codec, bs, namespace, key, value);
      && err == None
      && secret == Some(Secret(namespace, key, value, FormatSecretAlias(key)))
      && GetOutcome(codec, after, namespace, key) == (secret, None)
      && (forall c :: c in bs && c != CollectionName(namespace) ==> c in after && after[c] == bs[c])
      && (forall k :: k in bs[CollectionName(namespace)] && k != key ==>
            k in after[CollectionName(namespace)] && after[CollectionName(namespace)][k] == bs[CollectionName(namespace)][k])
  {
  }

  /** After Add, GetAll lists the new secret (when every record decodes). */
  lemma AddThenGetAll(codec: Codec<Secret>, bs: Buckets, namespace: string, key: string, value: string)
    requires RoundTrips(codec)
    requires IsValidSecretKey(key) && CollectionName(namespace) in bs
    ensures var after := AddOutcome(codec, bs, namespace, key, value).2;
      var (all, err) := GetAllOutcome(codec, after, namespace);
      err == None ==> Secret(namespace, key, value, FormatSecretAlias(key)) in all
  {
    var c := CollectionName(namespace);
    var s := Secret(namespace, key, value, FormatSecretAlias(key));
    var after := AddOutcome(codec, bs, namespace, key, value).2;
    var raw := ValuesInKeyOrder(after[c]);
    ValueListed(after[c], key);
    var j :| 0 <= j < |raw| && raw[j] == codec.encode(s);
    if AllDecode(codec, raw) {
      assert GetAllOutcome(codec, after, namespace).0[j] == s;
    }
  }

  /** GetAll is all or nothing: either one secret per record or an empty list with an error. */
  lemma GetAllAllOrNothing(codec: Codec<Secret>, bs: Buckets, namespace: string)
    ensures var (all, err) := GetAllOutcome(codec, bs, namespace);
      && (err == None <==> CollectionName(namespace) in bs && AllDecode(codec, ValuesInKeyOrder(bs[CollectionName(namespace)])))
      && (err == None ==> |all| == |bs[CollectionName(namespace)]|)
      && (err != None ==> all == [])
  {
  }

  /** Add */
  method Add(db: BoltStore, codec: Codec<Secret>, deploymentName: string, key: string, value: string)
    returns (secret: Option<Secret>, err: Option<Error>)
    modifies db
    ensures (secret, err, db.buckets) == AddOutcome(codec, old(db.buckets), deploymentName, key, value)
  {
    if !IsValidSecretKey(key) {
      return Some(EmptySecret), Some(InvalidSecretName(key));
    }
    var s := Secret(deploymentName, key, value, FormatSecretAlias(key));
    var bytes := codec.encode(s);
    var collection := CollectionName(deploymentName);
    err := db.Put(collection, s.key, bytes);
    if err != None {
      return None, err;
    }
    return Some(s), None;
  }

  /** Delete: removes one secret; a missing secret or collection is no error. */
  method Delete(db: BoltStore, namespace: string, key: string) returns (err: Option<Error>)
    modifies db
    ensures err == None
    ensures var c := CollectionName(namespace);
      db.buckets == if c in old(db.buckets) then old(db.buckets)[c := old(db.buckets)[c] - {key}] else old(db.buckets)
  {
    var collection := CollectionName(namespace);
    err := db.Remove(collection, key);
  }

  /**
   * A store operation on one named collection (the store's CreateCollection
   * or DeleteCollection): the buckets afterwards and the error it reports.
   */
  type CollectionOp = (Buckets, string) -> (Buckets, Option<Error>)

  /** CreateCollection: hands the deployment's secrets collection name to the store. */
  method CreateCollection(db: BoltStore, createCollection: CollectionOp, namespace: string) returns (err: Option<Error>)
    modifies db
    ensures (db.buckets, err) == createCollection(old(db.buckets), CollectionName(namespace))
  {
    var collection := CollectionName(namespace);
    var (after, e) := createCollection(db.buckets, collection);
    db.buckets := after;
    err := e;
  }

  /** DeleteCollection: hands the deployment's secrets collection name to the store. */
  method DeleteCollection(db: BoltStore, deleteCollection: CollectionOp, namespace: string) returns (err: Option<Error>)
    modifies db
    ensures (db.buckets, err) == deleteCollection(old(db.buckets), CollectionName(namespace))
  {
    var collection := CollectionName(namespace);
    var (after, e) := deleteCollection(db.buckets, collection);
    db.buckets := after;
    err := e;
  }

  /** Get */
  method Get(db: BoltStore, codec: Codec<Secret>, namespace: string, key: string) returns (secret: Option<Secret>, err: Option<Error>)
    ensures (secret, err) == GetOutcome(codec, db.buckets, namespace, key)
  {
    var collection := CollectionName(namespace);
    var bytes, e := db.Get(collection, key);
    if e != None {
      return None, e;
    }
    if bytes == None {
      return None, Some(SecretNotFound(key));
    }
    secret := codec.decode(bytes.value);
    return secret, None;
  }

  /** GetAll: decodes every record; the first that fails to decode empties the result. */
  method GetAll(db: BoltStore, codec: Codec<Secret>, namespace: string) returns (secrets: seq<Secret>, err: Option<Error>)
    ensures (secrets, err) == GetAllOutcome(codec, db.buckets, namespace)
  {
    var collection := CollectionName(namespace);
    var raw, e := db.GetAll(collection);
    if e != None {
      return [], e;
    }
    secrets := [];
    var i := 0;
    while i < |raw|
      invariant 0 <= i <= |raw|
      invariant |secrets| == i
      invariant forall j :: 0 <= j < i ==> codec.decode(raw[j]) == Some(secrets[j])
    {
      var s := codec.decode(raw[i]);
      if s == None {
        assert !AllDecode(codec, raw) by { assert codec.decode(raw[i]).None?; }
        return [], Some(DecodeFailed);
      }
      secrets := secrets + [s.value];
      i := i + 1;
    }
    assert AllDecode(codec, raw);
    assert secrets == DecodeAll(codec, raw);
    return secrets, None;
  }

  /** GetAllRedacted: GetAll with every value masked; an error gives an empty list. */
  method GetAllRedacted(db: BoltStore, codec: Codec<Secret>, namespace: string) returns (redacted: seq<Secret>)
    ensures var plain := GetAllOutcome(codec, db.buckets, namespace).0;
      |redacted| == |plain| && forall i :: 0 <= i < |plain| ==> redacted[i] == Redact(plain[i])
  {
    var plain, _ := GetAll(db, codec, namespace);
    redacted := [];
    var i := 0;
    while i < |plain|
      invariant 0 <= i <= |plain|
      invariant |redacted| == i
      invariant forall j :: 0 <= j < i ==> redacted[j] == Redact(plain[j])
    {
      redacted := redacted + [Redact(plain[i])];
      i := i + 1;
    }
  }
}
