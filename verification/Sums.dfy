/** Finite sums of real-valued functions over lists of distinct keys, and the size of finite sets. */
module Sums {

  ghost predicate Distinct<T>(s: seq<T>) {
    forall i, j :: 0 <= i < j < |s| ==> s[i] != s[j]
  }

  function Abs(x: real): real {
    if x < 0.0 then -x else x
  }

  /** Table lookup with the default zero. */
  function At<K(==)>(v: map<K, real>, k: K): real {
    if k in v then v[k] else 0.0
  }

  function Of<K(==)>(v: map<K, real>): K -> real {
    k => At(v, k)
  }

  function Sum<K>(keys: seq<K>, f: K -> real): real {
    if keys == [] then 0.0 else Sum(keys[..|keys| - 1], f) + f(keys[|keys| - 1])
  }

  lemma {:induction false} SumAppend<K>(keys: seq<K>, k: K, f: K -> real)
    ensures Sum(keys + [k], f) == Sum(keys, f) + f(k)
  {
    assert (keys + [k])[..|keys|] == keys;
  }

  lemma {:induction false} SumAgree<K>(keys: seq<K>, f: K -> real, g: K -> real)
    requires forall k :: k in keys ==> f(k) == g(k)
    ensures Sum(keys, f) == Sum(keys, g)
  {
    if keys != [] {
      SumAgree(keys[..|keys| - 1], f, g);
    }
  }

  lemma {:induction false} SumAdd<K>(keys: seq<K>, h: K -> real, f: K -> real, g: K -> real)
    requires forall k :: k in keys ==> h(k) == f(k) + g(k)
    ensures Sum(keys, h) == Sum(keys, f) + Sum(keys, g)
  {
    if keys != [] {
      SumAdd(keys[..|keys| - 1], h, f, g);
    }
  }

  lemma {:induction false} SumScale<K>(keys: seq<K>, f: K -> real, c: real, g: K -> real)
    requires forall k :: k in keys ==> f(k) == c * g(k)
    ensures Sum(keys, f) == c * Sum(keys, g)
  {
    if keys != [] {
      SumScale(keys[..|keys| - 1], f, c, g);
    }
  }

  lemma {:induction false} SumMonotone<K>(keys: seq<K>, f: K -> real, g: K -> real)
    requires forall k :: k in keys ==> f(k) <= g(k)
    ensures Sum(keys, f) <= Sum(keys, g)
  {
    if keys != [] {
      SumMonotone(keys[..|keys| - 1], f, g);
    }
  }

  lemma {:induction false} SumConstant<K>(keys: seq<K>, f: K -> real, c: real)
    requires forall k :: k in keys ==> f(k) == c
    ensures Sum(keys, f) == |keys| as real * c
  {
    if keys != [] {
      SumConstant(keys[..|keys| - 1], f, c);
      assert |keys| as real * c == (|keys| - 1) as real * c + c;
    }
  }

  lemma {:induction false} SumOfDifference<K>(keys: seq<K>, f: K -> real, g: K -> real, h: K -> real)
    requires forall k :: k in keys ==> Abs(f(k) - g(k)) <= h(k)
    ensures Abs(Sum(keys, f) - Sum(keys, g)) <= Sum(keys, h)
  {
    if keys != [] {
      SumOfDifference(keys[..|keys| - 1], f, g, h);
    }
  }

  /** Raising one entry by `c` raises the sum by `c`. */
  lemma {:induction false} SumBump<K>(keys: seq<K>, f: K -> real, g: K -> real, t: K, c: real)
    requires Distinct(keys)
    requires forall k :: k in keys ==> f(k) == g(k) + (if k == t then c else 0.0)
    ensures Sum(keys, f) == Sum(keys, g) + (if t in keys then c else 0.0)
  {
    if keys != [] {
      SumBump(keys[..|keys| - 1], f, g, t, c);
      assert keys == keys[..|keys| - 1] + [keys[|keys| - 1]];
    }
  }

  lemma {:induction false} SumRemove<K>(keys: seq<K>, f: K -> real, i: nat)
    requires i < |keys|
    ensures Sum(keys, f) == Sum(keys[..i] + keys[i + 1..], f) + f(keys[i])
  {
    var last := |keys| - 1;
    if i == last {
      assert keys[..i] + keys[i + 1..] == keys[..last];
    } else {
      SumRemove(keys[..last], f, i);
      var rest := keys[..last][..i] + keys[..last][i + 1..];
      assert keys[..i] + keys[i + 1..] == rest + [keys[last]];
      SumAppend(rest, keys[last], f);
    }
  }

  /** A sum over distinct keys does not depend on their order. */
  lemma {:induction false} SumOrderFree<K>(a: seq<K>, b: seq<K>, f: K -> real)
    requires Distinct(a) && Distinct(b) && forall k :: k in a <==> k in b
    ensures Sum(a, f) == Sum(b, f)
  {
    if a == [] {
      assert forall i :: 0 <= i < |b| ==> b[i] in b;
    } else {
      var x := a[|a| - 1];
      assert x in a && x in b;
      var i :| 0 <= i < |b| && b[i] == x;
      var rest := b[..i] + b[i + 1..];
      assert forall k :: k in rest <==> k in b && k != x;
      assert forall k :: k in a[..|a| - 1] <==> k in a && k != x by {
        assert a == a[..|a| - 1] + [x];
      }
      SumOrderFree(a[..|a| - 1], rest, f);
      SumRemove(b, f, i);
    }
  }

  lemma {:induction false} SubsetSize<T>(a: set<T>, b: set<T>)
    requires a <= b
    ensures |a| <= |b|
  {
    if a != {} {
      var x :| x in a;
      SubsetSize(a - {x}, b - {x});
    }
  }
}
