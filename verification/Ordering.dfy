/** Byte order on strings and the sorted enumeration of a set of strings.
    A Go string is a byte sequence: throughout the model one `char` stands for one byte. */
module Ordering {

  datatype Option<+T> = None | Some(value: T)

  /** bytes.Compare(a, b) < 0. */
  predicate Less(a: string, b: string) {
    b != [] && (a == [] || a[0] < b[0] || (a[0] == b[0] && Less(a[1..], b[1..])))
  }

  lemma {:induction false} LessIrreflexive(a: string)
    ensures !Less(a, a)
  {
    if a != [] {
      LessIrreflexive(a[1..]);
    }
  }

  lemma {:induction false} LessTransitive(a: string, b: string, c: string)
    requires Less(a, b) && Less(b, c)
    ensures Less(a, c)
  {
    if a != [] && a[0] == b[0] == c[0] {
      LessTransitive(a[1..], b[1..], c[1..]);
    }
  }

  lemma {:induction false} LessTotal(a: string, b: string)
    ensures a == b || Less(a, b) || Less(b, a)
  {
    if a != [] && b != [] && a[0] == b[0] {
      LessTotal(a[1..], b[1..]);
      assert a == [a[0]] + a[1..] && b == [b[0]] + b[1..];
    }
  }

  lemma LessAsymmetric(a: string, b: string)
    requires Less(a, b)
    ensures !Less(b, a) && a != b
  {
    LessIrreflexive(a);
    if Less(b, a) {
      LessTransitive(a, b, a);
    }
  }

  /** Strictly ascending, hence without repetition. */
  ghost predicate Ascending(xs: seq<string>) {
    forall i, j | 0 <= i < j < |xs| :: Less(xs[i], xs[j])
  }

  ghost function Elements<T>(xs: seq<T>): (s: set<T>) {
    set x | x in xs
  }

  ghost predicate IsLeast(x: string, s: set<string>) {
    x in s && forall y | y in s :: y == x || Less(x, y)
  }

  lemma {:induction false} LeastExists(s: set<string>)
    requires s != {}
    ensures exists x :: IsLeast(x, s)
    decreases |s|
  {
    var x :| x in s;
    if s == {x} {
      assert IsLeast(x, s);
    } else {
      LeastExists(s - {x});
      var y :| IsLeast(y, s - {x});
      LessTotal(x, y);
      if Less(x, y) {
        forall z | z in s ensures z == x || Less(x, z) {
          if z != x && z != y {
            LessTransitive(x, y, z);
          }
        }
        assert IsLeast(x, s);
      } else {
        assert IsLeast(y, s);
      }
    }
  }

  ghost function Least(s: set<string>): (x: string)
    requires s != {}
    ensures IsLeast(x, s)
  {
    LeastExists(s);
    var x :| IsLeast(x, s);
    x
  }

  lemma AscendingPrepend(x: string, rest: seq<string>)
    requires Ascending(rest) && forall y | y in Elements(rest) :: Less(x, y)
    ensures Ascending([x] + rest) && Elements([x] + rest) == {x} + Elements(rest)
  {
    var xs := [x] + rest;
    forall i, j | 0 <= i < j < |xs| ensures Less(xs[i], xs[j]) {
      assert rest[j - 1] in Elements(rest);
    }
    forall y | y in rest ensures y in Elements(xs) {
      assert y in xs;
    }
  }

  /** The keys of a map in byte order, as json.Marshal prints them. */
  ghost function Sorted(s: set<string>): (xs: seq<string>)
    ensures Elements(xs) == s
    ensures Ascending(xs)
    ensures |xs| == |s|
    decreases |s|
  {
    if s == {} then [] else
      var x := Least(s);
      var rest := Sorted(s - {x});
      AscendingPrepend(x, rest);
      [x] + rest
  }

  /** One set has one ascending enumeration. */
  lemma {:induction false} AscendingUnique(xs: seq<string>, ys: seq<string>)
    requires Ascending(xs) && Ascending(ys) && Elements(xs) == Elements(ys)
    ensures xs == ys
  {
    assert xs != [] ==> xs[0] in Elements(ys);
    assert ys != [] ==> ys[0] in Elements(xs);
    if xs == [] {
    } else {
      assert xs[0] in Elements(ys);
      assert ys != [];
      assert ys[0] in Elements(xs);
      var i :| 0 <= i < |ys| && ys[i] == xs[0];
      var j :| 0 <= j < |xs| && xs[j] == ys[0];
      if i != 0 {
        LessAsymmetric(ys[0], ys[i]);
      }
      assert xs[0] == ys[0];
      AscendingTail(xs);
      AscendingTail(ys);
      AscendingUnique(xs[1..], ys[1..]);
      assert xs == [xs[0]] + xs[1..] && ys == [ys[0]] + ys[1..];
    }
  }

  lemma AscendingTail(xs: seq<string>)
    requires Ascending(xs) && xs != []
    ensures Ascending(xs[1..]) && Elements(xs[1..]) == Elements(xs) - {xs[0]}
  {
    forall i | 1 <= i < |xs| ensures xs[i] != xs[0] {
      LessAsymmetric(xs[0], xs[i]);
    }
    forall x | x in Elements(xs) && x != xs[0] ensures x in Elements(xs[1..]) {
      var i :| 0 <= i < |xs| && xs[i] == x;
      assert xs[1..][i - 1] == x;
    }
  }

  ghost function Pick<T>(s: set<T>): (x: T)
    requires s != {}
    ensures x in s
  {
    var x :| x in s;
    x
  }

  /** Sum of a family of sizes over some of its keys, in no particular order. */
  ghost function Sum<K>(sizes: map<K, nat>, keys: set<K>): (total: nat)
    requires keys <= sizes.Keys
    decreases |keys|
  {
    if keys == {} then 0 else
      var k := Pick(keys);
      sizes[k] + Sum(sizes, keys - {k})
  }

  lemma {:induction false} SumRemove<K>(sizes: map<K, nat>, keys: set<K>, k: K)
    requires k in keys && keys <= sizes.Keys
    ensures Sum(sizes, keys) == sizes[k] + Sum(sizes, keys - {k})
    decreases |keys|
  {
    var l := Pick(keys);
    if l != k {
      SumRemove(sizes, keys - {l}, k);
      SumRemove(sizes, keys - {k}, l);
      assert keys - {l} - {k} == keys - {k} - {l};
    }
  }

  lemma SumAdd<K>(sizes: map<K, nat>, keys: set<K>, k: K)
    requires keys <= sizes.Keys && k in sizes && k !in keys
    ensures Sum(sizes, keys + {k}) == sizes[k] + Sum(sizes, keys)
  {
    SumRemove(sizes, keys + {k}, k);
    assert keys + {k} - {k} == keys;
  }

  lemma {:induction false} SumMonotone<K>(sizes: map<K, nat>, some: set<K>, keys: set<K>)
    requires some <= keys <= sizes.Keys
    ensures Sum(sizes, some) <= Sum(sizes, keys)
    decreases |keys - some|
  {
    if some != keys {
      var k :| k in keys && k !in some;
      SumAdd(sizes, some, k);
      assert keys - (some + {k}) < keys - some;
      SumMonotone(sizes, some + {k}, keys);
    }
  }

  /** The same sum taken along a list without repetition. */
  ghost function SumAlong(sizes: map<string, nat>, keys: seq<string>): (total: nat)
    requires forall k | k in keys :: k in sizes
  {
    if keys == [] then 0 else sizes[keys[0]] + SumAlong(sizes, keys[1..])
  }

  lemma {:induction false} SumAlongAscending(sizes: map<string, nat>, keys: seq<string>)
    requires (forall k | k in keys :: k in sizes) && Ascending(keys)
    ensures Elements(keys) <= sizes.Keys && SumAlong(sizes, keys) == Sum(sizes, Elements(keys))
  {
    if keys != [] {
      AscendingTail(keys);
      SumAlongAscending(sizes, keys[1..]);
      SumAdd(sizes, Elements(keys[1..]), keys[0]);
      assert Elements(keys) == Elements(keys[1..]) + {keys[0]};
    }
  }

  // ----- Lists ordered by a key -----

  ghost predicate AscendingBy<T(!new)>(xs: seq<T>, key: T -> string) {
    forall i, j | 0 <= i < j < |xs| :: Less(key(xs[i]), key(xs[j]))
  }

  lemma AscendingByTail<T(!new)>(xs: seq<T>, key: T -> string)
    requires AscendingBy(xs, key) && xs != []
    ensures AscendingBy(xs[1..], key) && Elements(xs[1..]) == Elements(xs) - {xs[0]}
  {
    forall i | 1 <= i < |xs| ensures xs[i] != xs[0] {
      LessIrreflexive(key(xs[0]));
    }
    forall x | x in Elements(xs) - {xs[0]} ensures x in Elements(xs[1..]) {
      var i :| 0 <= i < |xs| && xs[i] == x;
      assert xs[1..][i - 1] == x;
    }
  }

  lemma AscendingByFirst<T(!new)>(xs: seq<T>, ys: seq<T>, key: T -> string)
    requires AscendingBy(xs, key) && AscendingBy(ys, key) && Elements(xs) == Elements(ys) && xs != [] && ys != []
    ensures xs[0] == ys[0]
  {
    assert xs[0] in Elements(ys) && ys[0] in Elements(xs);
    var i :| 0 <= i < |ys| && ys[i] == xs[0];
    var j :| 0 <= j < |xs| && xs[j] == ys[0];
    if i != 0 {
      LessAsymmetric(key(ys[0]), key(ys[i]));
    }
  }

  /** One set has one arrangement in ascending order of a key. */
  lemma {:induction false} AscendingByUnique<T(!new)>(xs: seq<T>, ys: seq<T>, key: T -> string)
    requires AscendingBy(xs, key) && AscendingBy(ys, key) && Elements(xs) == Elements(ys)
    ensures xs == ys
  {
    assert xs != [] ==> xs[0] in Elements(ys);
    assert ys != [] ==> ys[0] in Elements(xs);
    if xs != [] {
      AscendingByFirst(xs, ys, key);
      AscendingByTail(xs, key);
      AscendingByTail(ys, key);
      AscendingByUnique(xs[1..], ys[1..], key);
      assert xs == [xs[0]] + xs[1..] && ys == [ys[0]] + ys[1..];
    }
  }
}
