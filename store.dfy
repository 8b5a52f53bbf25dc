/**
 * The bolt-backed key-value store of internal/store: named buckets, each
 * mapping keys to byte values in key order. The file, its transactions and
 * locking are not modelled; the store is one sequential object.
 */
module Store {
  import opened Wrappers
  import opened LexOrder
  import opened Codec

  type Bucket = map<string, Bytes>
  type Buckets = map<string, Bucket>

  const DefaultBoltPath: string := "/tmp/krane.db"

  // names of the buckets created when the store is opened
  const Authentication: string := "authentication"
  const Deployments: string := "deployments"
  const Sessions: string := "sessions"
  const BootstrapBuckets: seq<string> := [Authentication, Deployments, Sessions]

  /** The values of a bucket in ascending key order, one per key. */
  ghost function ValuesInKeyOrder(b: Bucket): (vs: seq<Bytes>)
  {
    var ks := SortedKeys(b.Keys);
    seq(|ks|, i requires 0 <= i < |ks| => b[ks[i]])
  }

  /** The part of a bucket whose keys lie between lo and hi, both included. */
  ghost function InRange(b: Bucket, lo: string, hi: string): Bucket
  {
    map k | k in b && LexLe(lo, k) && LexLe(k, hi) :: b[k]
  }

  /** The buckets after trying to create each name in turn: an existing or empty name is skipped. */
  ghost function WithBuckets(bs: Buckets, names: seq<string>): Buckets
  {
    bs + map n | n in names && n != "" && n !in bs :: map[]
  }

  /** Trying one more name creates it exactly when it is non-empty and not yet a bucket. */
  lemma WithBucketsSnoc(bs: Buckets, names: seq<string>, n: string)
    ensures var cur := WithBuckets(bs, names);
      WithBuckets(bs, names + [n]) == if n == "" || n in cur then cur else cur[n := map[]]
  {
    var cur := WithBuckets(bs, names);
    var next := WithBuckets(bs, names + [n]);
    var expected := if n == "" || n in cur then cur else cur[n := map[]];
    assert forall k :: k in names + [n] <==> k in names || k == n;
    assert next.Keys == expected.Keys;
    assert forall k :: k in next ==> next[k] == expected[k];
  }

  /** A scan that visited every key of a bucket once, in ascending order, collected its values in key order. */
  lemma ScanInOrder(b: Bucket, visited: seq<string>, data: seq<Bytes>)
    requires StrictlySorted(visited)
    requires forall k :: k in visited <==> k in b
    requires |data| == |visited|
    requires forall i :: 0 <= i < |visited| ==> data[i] == b[visited[i]]
    ensures data == ValuesInKeyOrder(b)
  {
    SortedUnique(visited, SortedKeys(b.Keys));
  }

  /** Every stored value appears in the key-ordered listing, at its key's position. */
  lemma ValueListed(b: Bucket, k: string)
    requires k in b
    ensures exists j :: 0 <= j < |ValuesInKeyOrder(b)| && SortedKeys(b.Keys)[j] == k && ValuesInKeyOrder(b)[j] == b[k]
  {
    var ks := SortedKeys(b.Keys);
    assert k in ks;
    var j :| 0 <= j < |ks| && ks[j] == k;
    assert ValuesInKeyOrder(b)[j] == b[k];
  }

  /** A range scan whose lower bound lies above its upper bound finds nothing. */
  lemma RangeEmptyWhenInverted(b: Bucket, lo: string, hi: string)
    requires !LexLe(lo, hi)
    ensures InRange(b, lo, hi) == map[]
    ensures ValuesInKeyOrder(InRange(b, lo, hi)) == []
  {
    forall k | k in b
      ensures !(LexLe(lo, k) && LexLe(k, hi))
    {
      if LexLe(lo, k) && LexLe(k, hi) {
        LexLeTransitive(lo, k, hi);
      }
    }
  }

  /** A scan whose bounds enclose every key of the bucket sees the whole bucket. */
  lemma FullRangeIsAll(b: Bucket, hi: string)
    requires forall k :: k in b ==> LexLe(k, hi)
    ensures ValuesInKeyOrder(InRange(b, "", hi)) == ValuesInKeyOrder(b)
  {
    assert InRange(b, "", hi) == b;
  }

  /** Opening the store creates the three fixed buckets and keeps every existing one as it was. */
  lemma BootstrapCreatesFixedBuckets(onDisk: Buckets)
    ensures var bs := WithBuckets(onDisk, BootstrapBuckets);
      && Authentication in bs && Deployments in bs && Sessions in bs
      && bs.Keys == onDisk.Keys + {Authentication, Deployments, Sessions}
      && (forall n :: n in onDisk ==> bs[n] == onDisk[n])
      && (forall n :: n in bs && n !in onDisk ==> bs[n] == map[])
  {
  }

  class BoltStore {
    const path: string
    var buckets: Buckets

    /** bolt.Open on a file that already holds the given buckets. */
    constructor Open(path: string, onDisk: Buckets)
      ensures this.path == path && buckets == onDisk
    {
      this.path := path;
      buckets := onDisk;
    }

    /** Creates the given buckets one by one; a failure is logged and the loop goes on. */
    method CreateBkts(bkts: seq<string>)
      modifies this
      ensures buckets == WithBuckets(old(buckets), bkts)
    {
      ghost var before := buckets;
      var i := 0;
      while i < |bkts|
        invariant 0 <= i <= |bkts|
        invariant buckets == WithBuckets(before, bkts[..i])
      {
        WithBucketsSnoc(before, bkts[..i], bkts[i]);
        assert bkts[..i + 1] == bkts[..i] + [bkts[i]];
        var err := CreateBucket(bkts[i]);
        i := i + 1;
      }
      assert bkts[..i] == bkts;
    }

    /** tx.CreateBucket: a new empty bucket, refused for an empty or existing name. */
    method CreateBucket(name: string) returns (err: Option<Error>)
      modifies this
      ensures name == "" ==> err == Some(BucketNameRequired) && buckets == old(buckets)
      ensures name != "" && name in old(buckets) ==> err == Some(BucketExists(name)) && buckets == old(buckets)
      ensures name != "" && name !in old(buckets) ==> err == None && buckets == old(buckets)[name := map[]]
    {
      if name == "" {
        return Some(BucketNameRequired);
      }
      if name in buckets {
        return Some(BucketExists(name));
      }
      buckets := buckets[name := map[]];
      return None;
    }

    /** Put: writes one key of an existing bucket. */
    method Put(collection: string, key: string, value: Bytes) returns (err: Option<Error>)
      modifies this
      ensures collection !in old(buckets) ==> err == Some(BucketNotFound(collection)) && buckets == old(buckets)
      ensures collection in old(buckets) && key == "" ==> err == Some(KeyRequired) && buckets == old(buckets)
      ensures collection in old(buckets) && key != "" ==>
        err == None && buckets == old(buckets)[collection := old(buckets)[collection][key := value]]
    {
      if collection !in buckets {
        return Some(BucketNotFound(collection));
      }
      if key == "" {
        return Some(KeyRequired);
      }
      buckets := buckets[collection := buckets[collection][key := value]];
      return None;
    }

    /**
     * Get: the value under the key, or none. The missing-bucket error raised
     * inside the read transaction is dropped, so err is always none.
     */
    method Get(collection: string, key: string) returns (data: Option<Bytes>, err: Option<Error>)
      ensures err == None
      ensures data.Some? <==> collection in buckets && key in buckets[collection]
      ensures data.Some? ==> data.value == buckets[collection][key]
    {
      err := None;
      if collection !in buckets {
        return None, err;
      }
      var bkt := buckets[collection];
      data := if key in bkt then Some(bkt[key]) else None;
    }

    /** GetAll: every value of the bucket in key order; a missing bucket is an error. */
    method GetAll(collection: string) returns (data: seq<Bytes>, err: Option<Error>)
      ensures collection !in buckets ==> data == [] && err == Some(BucketNotFound(collection))
      ensures collection in buckets ==> err == None && data == ValuesInKeyOrder(buckets[collection])
    {
      if collection !in buckets {
        return [], Some(BucketNotFound(collection));
      }
      err := None;
      var bkt := buckets[collection];
      var rest := bkt.Keys;
      ghost var visited: seq<string> := [];
      data := [];
      while rest != {}
        invariant rest <= bkt.Keys
        invariant StrictlySorted(visited)
        invariant forall k :: k in bkt ==> (k in visited <==> k !in rest)
        invariant forall k :: k in visited ==> k in bkt
        invariant forall i, k :: 0 <= i < |visited| && k in rest ==> LexLt(visited[i], k)
        invariant |data| == |visited|
        invariant forall i :: 0 <= i < |visited| ==> data[i] == bkt[visited[i]]
        decreases rest
      {
        var k := LeastKey(rest);
        visited, data := visited + [k], data + [bkt[k]];
        rest := rest - {k};
      }
      ScanInOrder(bkt, visited, data);
    }

    /**
     * GetInRange: the values whose keys lie between minDate and maxDate, both
     * included, in key order. A missing bucket gives nothing and no error.
     */
    method GetInRange(collection: string, minDate: string, maxDate: string) returns (data: seq<Bytes>, err: Option<Error>)
      ensures err == None
      ensures collection !in buckets ==> data == []
      ensures collection in buckets ==> data == ValuesInKeyOrder(InRange(buckets[collection], minDate, maxDate))
    {
      err := None;
      if collection !in buckets {
        return [], err;
      }
      var bkt := buckets[collection];
      ghost var range := InRange(bkt, minDate, maxDate);
      // the cursor starts at the first key at or above minDate
      var rest := set k | k in bkt && LexLe(minDate, k);
      var more := true;
      ghost var visited: seq<string> := [];
      data := [];
      while rest != {} && more
        invariant rest <= bkt.Keys
        invariant forall k :: k in rest ==> LexLe(minDate, k) && k !in visited
        invariant StrictlySorted(visited)
        invariant forall k :: k in range ==> k in visited || k in rest
        invariant forall i :: 0 <= i < |visited| ==> visited[i] in range
        invariant forall i, k :: 0 <= i < |visited| && k in rest ==> LexLt(visited[i], k)
        invariant !more ==> forall k :: k in rest ==> !LexLe(k, maxDate)
        invariant |data| == |visited|
        invariant forall i :: 0 <= i < |visited| ==> data[i] == range[visited[i]]
        decreases |rest| + (if more then 1 else 0)
      {
        var k := LeastKey(rest);
        if LexLe(k, maxDate) {
          assert k in range;
          visited, data := visited + [k], data + [bkt[k]];
          rest := rest - {k};
        } else {
          forall j | j in rest
            ensures !LexLe(j, maxDate)
          {
            if LexLe(j, maxDate) {
              LexLeTransitive(k, j, maxDate);
            }
          }
          more := false;
        }
      }
      ScanInOrder(range, visited, data);
    }

    /** Remove: deletes one key; a missing bucket or key is no error. */
    method Remove(collection: string, key: string) returns (err: Option<Error>)
      modifies this
      ensures err == None
      ensures collection !in old(buckets) ==> buckets == old(buckets)
      ensures collection in old(buckets) ==> buckets == old(buckets)[collection := old(buckets)[collection] - {key}]
    {
      if collection !in buckets {
        return None;
      }
      buckets := buckets[collection := buckets[collection] - {key}];
      return None;
    }
  }

  /** The package-level singleton handle. */
  class Registry {
    var instance: BoltStore?

    constructor ()
      ensures instance == null
    {
      instance := null;
    }

    /**
     * New: returns the existing handle if there is one; otherwise opens the
     * file (an empty path meaning the default path) and creates the fixed
     * buckets. A failed open ends the process; the model returns null.
     */
    method New(path: string, onDisk: Buckets, openFails: bool) returns (db: BoltStore?)
      modifies this
      ensures old(instance) != null ==> db == old(instance) && instance == old(instance)
      ensures old(instance) == null && openFails ==> db == null && instance == null
      ensures old(instance) == null && !openFails ==>
        && db != null && fresh(db) && instance == db
        && db.path == (if path == "" then DefaultBoltPath else path)
        && db.buckets == WithBuckets(onDisk, BootstrapBuckets)
    {
      if instance != null {
        return instance;
      }
      var p := if path == "" then DefaultBoltPath else path;
      if openFails {
        return null;
      }
      var handle := new BoltStore.Open(p, onDisk);
      instance := handle;
      handle.CreateBkts(BootstrapBuckets);
      return handle;
    }
  }
}
