/**
 * The key order of a bolt bucket: keys are compared byte by byte
 * (bytes.Compare), a proper prefix coming first. Keys are modelled as
 * strings of code points; UTF-8 encodes code points so that byte order
 * and code-point order agree, so comparing characters is comparing bytes.
 */
module LexOrder {

  /** bytes.Compare(a, b) <= 0 */
  predicate LexLe(a: string, b: string)
    decreases |a|
  {
    |a| == 0 || (|b| > 0 && (a[0] < b[0] || (a[0] == b[0] && LexLe(a[1..], b[1..]))))
  }

  /** bytes.Compare(a, b) < 0 */
  predicate LexLt(a: string, b: string)
  {
    LexLe(a, b) && a != b
  }

  lemma {:induction false} LexLeReflexive(a: string)
    ensures LexLe(a, a)
    decreases |a|
  {
    if |a| > 0 {
      LexLeReflexive(a[1..]);
    }
  }

  lemma {:induction false} LexLeAntisymmetric(a: string, b: string)
    requires LexLe(a, b) && LexLe(b, a)
    ensures a == b
    decreases |a|
  {
    if |a| > 0 {
      LexLeAntisymmetric(a[1..], b[1..]);
      assert a == [a[0]] + a[1..] && b == [b[0]] + b[1..];
    }
  }

  lemma {:induction false} LexLeTransitive(a: string, b: string, c: string)
    requires LexLe(a, b) && LexLe(b, c)
    ensures LexLe(a, c)
    decreases |a|
  {
    if |a| > 0 && a[0] == b[0] && b[0] == c[0] {
      LexLeTransitive(a[1..], b[1..], c[1..]);
    }
  }

  lemma {:induction false} LexLeTotal(a: string, b: string)
    ensures LexLe(a, b) || LexLe(b, a)
    decreases |a|
  {
    if |a| > 0 && |b| > 0 && a[0] == b[0] {
      LexLeTotal(a[1..], b[1..]);
    }
  }

  /** Every key of the sequence is strictly below every later one. */
  ghost predicate StrictlySorted(ks: seq<string>)
  {
    forall i, j :: 0 <= i < j < |ks| ==> LexLt(ks[i], ks[j])
  }

  ghost predicate IsLeast(m: string, s: set<string>)
  {
    m in s && forall k :: k in s ==> LexLe(m, k)
  }

  lemma {:induction false} LeastExists(s: set<string>)
    requires s != {}
    ensures exists m :: IsLeast(m, s)
    decreases |s|
  {
    var x :| x in s;
    if s - {x} == {} {
      assert s == {x};
      LexLeReflexive(x);
      assert IsLeast(x, s);
    } else {
      LeastExists(s - {x});
      var m :| IsLeast(m, s - {x});
      LexLeTotal(m, x);
      if LexLe(m, x) {
        assert IsLeast(m, s);
      } else {
        LexLeReflexive(x);
        forall k | k in s
          ensures LexLe(x, k)
        {
          if k != x {
            LexLeTransitive(x, m, k);
          }
        }
        assert IsLeast(x, s);
      }
    }
  }

  /** The keys of a bucket in the order a cursor visits them. */
  ghost function SortedKeys(s: set<string>): (ks: seq<string>)
    ensures StrictlySorted(ks)
    ensures |ks| == |s|
    ensures forall k :: k in ks <==> k in s
    decreases |s|
  {
    if s == {} then []
    else
      LeastExists(s);
      var m :| IsLeast(m, s);
      var rest := SortedKeys(s - {m});
      assert forall j :: 0 <= j < |rest| ==> LexLt(m, rest[j]) by {
        forall j | 0 <= j < |rest|
          ensures LexLt(m, rest[j])
        {
          assert rest[j] in rest;
        }
      }
      [m] + rest
  }

  lemma SameKeysNonEmpty(a: seq<string>, b: seq<string>)
    requires forall k :: k in a <==> k in b
    ensures b != [] ==> a != []
  {
    if b != [] {
      assert b[0] in b;
    }
  }

  /** Two strictly sorted sequences over the same keys are the same sequence. */
  lemma {:induction false} SortedUnique(a: seq<string>, b: seq<string>)
    requires StrictlySorted(a) && StrictlySorted(b)
    requires forall k :: k in a <==> k in b
    ensures a == b
    decreases |a|
  {
    if |a| > 0 {
      assert b != [] by { assert a[0] in a; }
      assert b[0] in a by { assert b[0] in b; }
      assert a[0] in b by { assert a[0] in a; }
      // a[0] and b[0] are both the least key of the common set
      assert LexLe(a[0], b[0]) by {
        var j :| 0 <= j < |a| && a[j] == b[0];
        if j > 0 { assert LexLt(a[0], a[j]); } else { LexLeReflexive(a[0]); }
      }
      assert LexLe(b[0], a[0]) by {
        var j :| 0 <= j < |b| && b[j] == a[0];
        if j > 0 { assert LexLt(b[0], b[j]); } else { LexLeReflexive(b[0]); }
      }
      LexLeAntisymmetric(a[0], b[0]);
      forall k
        ensures k in a[1..] <==> k in b[1..]
      {
        if k in a[1..] {
          var i :| 1 <= i < |a| && a[i] == k;
          assert LexLt(a[0], a[i]);
          assert k in b;
        }
        if k in b[1..] {
          var i :| 1 <= i < |b| && b[i] == k;
          assert LexLt(b[0], b[i]);
          assert k in a;
        }
      }
      SortedUnique(a[1..], b[1..]);
      assert a == [a[0]] + a[1..] && b == [b[0]] + b[1..];
    } else {
      SameKeysNonEmpty(a, b);
    }
  }

  /** Chooses the least key of a non-empty key set, as a cursor's First or Seek does. */
  method LeastKey(s: set<string>) returns (m: string)
    requires s != {}
    ensures IsLeast(m, s)
  {
    m :| m in s;
    LexLeReflexive(m);
    var rest := s - {m};
    while rest != {}
      invariant rest <= s && m in s
      invariant forall k :: k in s && k !in rest ==> LexLe(m, k)
      decreases rest
    {
      var k :| k in rest;
      if !LexLe(m, k) {
        LexLeTotal(m, k);
        forall j | j in s && j !in rest
          ensures LexLe(k, j)
        {
          LexLeTransitive(k, m, j);
        }
        LexLeReflexive(k);
        m := k;
      }
      rest := rest - {k};
    }
  }
}
