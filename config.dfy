/**
 * internal/deployment/config: deployment configurations kept in the
 * deployments bucket under their names. The validation and defaulting
 * rules are not part of this model; the caller supplies them.
 */
module DeploymentConfig {
  import opened Wrappers
  import opened Codec
  import opened Store

  datatype Config = Config(
    name: string,
    registry: string,
    image: string,
    tag: string,
    alias: seq<string>,
    env: map<string, string>,
    secrets: map<string, string>,
    volumes: map<string, string>)

  /** The zero Config returned beside a lookup error. */
  const ZeroConfig: Config := Config("", "", "", "", [], map[], map[], map[])

  /** cfg.validate and cfg.applyDefaults. */
  datatype Rules = Rules(validate: Config -> Option<Error>, applyDefaults: Config -> Config)

  /** What Save leaves in the caller's config, what it returns, and what the buckets hold afterwards. */
  ghost function SaveOutcome(codec: Codec<Config>, rules: Rules, bs: Buckets, cfg: Config): (Config, Option<Error>, Buckets)
  {
    match rules.validate(cfg)
    case Some(e) => (cfg, Some(e), bs)
    case None =>
      var d := rules.applyDefaults(cfg);
      if Deployments !in bs then (d, Some(BucketNotFound(Deployments)), bs)
      else if d.name == "" then (d, Some(KeyRequired), bs)
      else (d, None, bs[Deployments := bs[Deployments][d.name := codec.encode(d)]])
  }

  /** What Get returns. */
  ghost function GetOutcome(codec: Codec<Config>, bs: Buckets, name: string): (Config, Option<Error>)
  {
    if Deployments !in bs || name !in bs[Deployments] then (ZeroConfig, Some(DeploymentNotFound))
    else match codec.decode(bs[Deployments][name])
      case None => (ZeroConfig, Some(DecodeFailed))
      case Some(c) => (c, None)
  }

  /** A record that does not decode reads as the zero Config. */
  function DecodeOrZero(codec: Codec<Config>, b: Bytes): Config
  {
    match codec.decode(b)
    case Some(c) => c
    case None => ZeroConfig
  }

  function DecodeAll(codec: Codec<Config>, raw: seq<Bytes>): seq<Config>
  {
    seq(|raw|, i requires 0 <= i < |raw| => DecodeOrZero(codec, raw[i]))
  }

  /** What GetAll returns: one Config per record, in name order. */
  ghost function GetAllOutcome(codec: Codec<Config>, bs: Buckets): (seq<Config>, Option<Error>)
  {
    if Deployments !in bs then ([], Some(BucketNotFound(Deployments)))
    else (DecodeAll(codec, ValuesInKeyOrder(bs[Deployments])), None)
  }

  /** The buckets after Delete. */
  ghost function DeleteOutcome(bs: Buckets, name: string): Buckets
  {
    if Deployments in bs then bs[Deployments := bs[Deployments] - {name}] else bs
  }

  /** A configuration that fails validation is returned as it was, undefaulted, and nothing is written. */
  lemma SaveInvalidWritesNothing(codec: Codec<Config>, rules: Rules, bs: Buckets, cfg: Config)
    requires rules.validate(cfg).Some?
    ensures SaveOutcome(codec, rules, bs, cfg) == (cfg, rules.validate(cfg), bs)
  {
  }

  /** Save then Get under the defaulted name gives back the defaulted configuration; other records are untouched. */
  lemma SaveThenGet(codec: Codec<Config>, rules: Rules, bs: Buckets, cfg: Config)
    requires RoundTrips(codec)
    requires rules.validate(cfg) == None && Deployments in bs
    requires rules.applyDefaults(cfg).name != ""
    ensures var (saved, err, after) := SaveOutcome(codec, rules, bs, cfg);
      && saved == rules.applyDefaults(cfg) && err == None
      && GetOutcome(codec, after, saved.name) == (saved, None)
      && (forall n :: n != saved.name ==> GetOutcome(codec, after, n) == GetOutcome(codec, bs, n))
      && (forall c :: c in bs && c != Deployments ==> c in after && after[c] == bs[c])
  {
  }

  /** After Save, GetAll lists the saved configuration. */
  lemma SaveThenGetAll(codec: Codec<Config>, rules: Rules, bs: Buckets, cfg: Config)
    requires RoundTrips(codec)
    requires rules.validate(cfg) == None && Deployments in bs
    requires rules.applyDefaults(cfg).name != ""
    ensures var after := SaveOutcome(codec, rules, bs, cfg).2;
      rules.applyDefaults(cfg) in GetAllOutcome(codec, after).0
  {
    var d := rules.applyDefaults(cfg);
    var after := SaveOutcome(codec, rules, bs, cfg).2;
    var raw := ValuesInKeyOrder(after[Deployments]);
    ValueListed(after[Deployments], d.name);
    var j :| 0 <= j < |raw| && raw[j] == codec.encode(d);
    assert GetAllOutcome(codec, after).0[j] == d;
  }

  /** GetAll lists one Config per stored record, the zero Config for one that does not decode. */
  lemma GetAllOnePerRecord(codec: Codec<Config>, bs: Buckets)
    ensures var (all, err) := GetAllOutcome(codec, bs);
      && (Deployments !in bs ==> all == [] && err == Some(BucketNotFound(Deployments)))
      && (Deployments in bs ==> err == None && |all| == |bs[Deployments]|)
      && (Deployments in bs ==> forall i :: 0 <= i < |all| ==>
            var raw := ValuesInKeyOrder(bs[Deployments])[i];
            all[i] == if codec.decode(raw).Some? then codec.decode(raw).value else ZeroConfig)
  {
  }

  /** After Delete, Get of that name finds nothing and every other name reads as before. */
  lemma DeleteThenGet(codec: Codec<Config>, bs: Buckets, name: string)
    ensures GetOutcome(codec, DeleteOutcome(bs, name), name) == (ZeroConfig, Some(DeploymentNotFound))
    ensures forall n :: n != name ==> GetOutcome(codec, DeleteOutcome(bs, name), n) == GetOutcome(codec, bs, n)
  {
  }

  /**
   * Save: validate, then apply the defaults to the caller's config (returned
   * as saved), then write it under its name.
   */
  method Save(db: BoltStore, codec: Codec<Config>, rules: Rules, cfg: Config) returns (saved: Config, err: Option<Error>)
    modifies db
    ensures (saved, err, db.buckets) == SaveOutcome(codec, rules, old(db.buckets), cfg)
  {
    saved := cfg;
    err := rules.validate(saved);
    if err != None {
      return saved, err;
    }
    saved := rules.applyDefaults(saved);
    var bytes := codec.encode(saved);
    err := db.Put(Deployments, saved.name, bytes);
    if err != None {
      return saved, err;
    }
    return saved, None;
  }

  /** Delete */
  method Delete(db: BoltStore, name: string) returns (err: Option<Error>)
    modifies db
    ensures err == None
    ensures db.buckets == DeleteOutcome(old(db.buckets), name)
  {
    err := db.Remove(Deployments, name);
    if err != None {
      return err;
    }
    return None;
  }

  /** Get */
  method Get(db: BoltStore, codec: Codec<Config>, deploymentName: string) returns (cfg: Config, err: Option<Error>)
    ensures (cfg, err) == GetOutcome(codec, db.buckets, deploymentName)
  {
    var bytes, e := db.Get(Deployments, deploymentName);
    if e != None {
      return ZeroConfig, e;
    }
    if bytes == None {
      return ZeroConfig, Some(DeploymentNotFound);
    }
    var decoded := codec.decode(bytes.value);
    if decoded == None {
      return ZeroConfig, Some(DecodeFailed);
    }
    return decoded.value, None;
  }

  /** GetAll: every record decoded, a failed decode giving the zero Config. */
  method GetAll(db: BoltStore, codec: Codec<Config>) returns (cfgs: seq<Config>, err: Option<Error>)
    ensures (cfgs, err) == GetAllOutcome(codec, db.buckets)
  {
    var raw, e := db.GetAll(Deployments);
    if e != None {
      return [], e;
    }
    cfgs := [];
    var i := 0;
    while i < |raw|
      invariant 0 <= i <= |raw|
      invariant |cfgs| == i
      invariant forall j :: 0 <= j < i ==> cfgs[j] == DecodeOrZero(codec, raw[j])
    {
      var cfg := DecodeOrZero(codec, raw[i]);
      cfgs := cfgs + [cfg];
      i := i + 1;
    }
    assert cfgs == DecodeAll(codec, raw);
    return cfgs, None;
  }
}
