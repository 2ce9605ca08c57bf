/** Small facts about options, sequences and counting that the other modules share. */
module Prelude {

  datatype Option<+T> = None | Some(value: T)

  ghost predicate Distinct<T>(xs: seq<T>) {
    forall i, j :: 0 <= i < j < |xs| ==> xs[i] != xs[j]
  }

  lemma Assoc<T>(a: seq<T>, b: seq<T>, c: seq<T>)
    ensures a + b + c == a + (b + c)
  {
  }

  ghost function Elements<T>(xs: seq<T>): set<T> {
    set x | x in xs
  }

  ghost function Chosen<K, V>(m: map<K, V>, p: V -> bool): set<K> {
    set k | k in m && p(m[k])
  }

  /** The number of keys whose value satisfies `p`. */
  ghost function Count<K, V>(m: map<K, V>, p: V -> bool): nat {
    |Chosen(m, p)|
  }

  lemma ChosenUpdate<K, V>(m: map<K, V>, p: V -> bool, k: K, v: V)
    ensures Chosen(m[k := v], p) == Chosen(m, p) - {k} + (if p(v) then {k} else {})
    ensures k in Chosen(m, p) <==> k in m && p(m[k])
  {
  }

  lemma WithoutOne<K>(s: set<K>, k: K)
    ensures |s - {k}| == |s| - (if k in s then 1 else 0)
    ensures |s - {k} + {k}| == |s - {k}| + 1
  {
  }

  /** Overwriting one key moves the count by the change at that key alone. */
  lemma CountUpdate<K, V>(m: map<K, V>, p: V -> bool, k: K, v: V)
    ensures Count(m[k := v], p) ==
            Count(m, p) - (if k in m && p(m[k]) then 1 else 0) + (if p(v) then 1 else 0)
  {
    ChosenUpdate(m, p, k, v);
    WithoutOne(Chosen(m, p), k);
  }

  lemma CountRemove<K, V>(m: map<K, V>, p: V -> bool, k: K)
    requires k in m
    ensures Count(m - {k}, p) == Count(m, p) - (if p(m[k]) then 1 else 0)
  {
    assert Chosen(m - {k}, p) == Chosen(m, p) - {k};
    WithoutOne(Chosen(m, p), k);
  }

  /** A positive count has a witness, and conversely. */
  lemma CountPositive<K, V>(m: map<K, V>, p: V -> bool)
    ensures Count(m, p) > 0 <==> exists k :: k in m && p(m[k])
  {
    var chosen := Chosen(m, p);
    if chosen != {} {
      var k :| k in chosen;
    } else {
      assert forall k :: k in m && p(m[k]) ==> k in chosen;
    }
  }

  lemma GrownMap<K, V>(m: map<K, V>, k: K, v: V)
    requires k !in m
    ensures |m[k := v]| == |m| + 1
  {
  }

  lemma ShrunkMap<K, V>(m: map<K, V>, k: K)
    requires k in m
    ensures |m - {k}| == |m| - 1
  {
  }

  /** Removing one occurrence of the element at `i` from a sequence without repeats removes it altogether. */
  lemma DistinctWithout<T>(xs: seq<T>, i: nat)
    requires Distinct(xs) && i < |xs|
    ensures Distinct(xs[..i] + xs[i + 1..])
    ensures xs[i] !in xs[..i] + xs[i + 1..]
    ensures forall x :: x in xs <==> x == xs[i] || x in xs[..i] + xs[i + 1..]
  {
  }

  function Take<T>(xs: seq<T>, n: nat): seq<T> {
    if |xs| <= n then xs else xs[..n]
  }

  lemma TakeMember<T>(xs: seq<T>, p: nat, n: nat)
    requires Distinct(xs) && p < |xs|
    ensures xs[p] in Take(xs, n) <==> p < n
  {
  }

  /** `xs` without the first occurrence of `t`. */
  function Remove<T(==)>(xs: seq<T>, t: T): seq<T> {
    if xs == [] then [] else if xs[0] == t then xs[1..] else [xs[0]] + Remove(xs[1..], t)
  }

  lemma {:induction false} RemoveAbsent<T>(xs: seq<T>, t: T)
    requires t !in xs
    ensures Remove(xs, t) == xs
  {
    if xs == [] {
    } else {
      RemoveAbsent(xs[1..], t);
    }
  }

  lemma {:induction false} RemoveAt<T>(xs: seq<T>, i: nat)
    requires Distinct(xs) && i < |xs|
    ensures Remove(xs, xs[i]) == xs[..i] + xs[i + 1..]
  {
    if i == 0 {
    } else {
      RemoveAt(xs[1..], i - 1);
      assert xs[1..][i - 1] == xs[i] && xs[0] != xs[i];
      assert xs[..i] + xs[i + 1..] == [xs[0]] + (xs[1..][..i - 1] + xs[1..][i..]);
    }
  }

  lemma RemoveFacts<T>(xs: seq<T>, t: T)
    requires Distinct(xs)
    ensures Distinct(Remove(xs, t)) && t !in Remove(xs, t)
    ensures forall u :: u in Remove(xs, t) <==> u in xs && u != t
  {
    if t in xs {
      var i: nat :| i < |xs| && xs[i] == t;
      RemoveAt(xs, i);
      DistinctWithout(xs, i);
    } else {
      RemoveAbsent(xs, t);
    }
  }

  lemma ElementsCons<T>(x: T, xs: seq<T>)
    ensures Elements([x] + xs) == {x} + Elements(xs)
  {
  }

  /** Moving `u` to the front puts it among the elements in front of every other element. */
  lemma MovedPosition<T>(xs: seq<T>, u: T, p: nat) returns (q: nat)
    requires p < |xs| && xs[p] != u
    ensures var ys := [u] + Remove(xs, u);
            q < |ys| && ys[q] == xs[p] && Elements(ys[..q]) == Elements(xs[..p]) + {u}
  {
    var rest := Remove(xs, u);
    var n := if u in xs[..p] then p - 1 else p;
    if u in xs[..p] {
      RemoveInFront(xs, u, p);
    } else {
      RemoveBehind(xs, u, p);
    }
    q := n + 1;
    assert ([u] + rest)[..q] == [u] + rest[..n];
    ElementsCons(u, rest[..n]);
  }

  /** Removing an element that comes earlier moves the element behind it up by one. */
  lemma {:induction false} RemoveInFront<T>(xs: seq<T>, u: T, p: nat)
    requires p < |xs| && u in xs[..p]
    ensures 0 < p <= |Remove(xs, u)| && Remove(xs, u)[p - 1] == xs[p]
    ensures Elements(Remove(xs, u)[..p - 1]) + {u} == Elements(xs[..p])
  {
    var x, rest := xs[0], xs[1..];
    assert xs[..p] == [x] + rest[..p - 1];
    ElementsCons(x, rest[..p - 1]);
    if x == u {
    } else {
      RemoveInFront(rest, u, p - 1);
      var shorter := Remove(rest, u);
      assert ([x] + shorter)[..p - 1] == [x] + shorter[..p - 2];
      ElementsCons(x, shorter[..p - 2]);
    }
  }

  /** Removing an element that comes later leaves the front and the element behind it in place. */
  lemma {:induction false} RemoveBehind<T>(xs: seq<T>, u: T, p: nat)
    requires p < |xs| && xs[p] != u && u !in xs[..p]
    ensures p < |Remove(xs, u)| && Remove(xs, u)[p] == xs[p] && Remove(xs, u)[..p] == xs[..p]
  {
    if p == 0 {
    } else {
      assert xs[0] == xs[..p][0] && xs[1..][..p - 1] == xs[..p][1..];
      RemoveBehind(xs[1..], u, p - 1);
      assert Remove(xs, u) == [xs[0]] + Remove(xs[1..], u);
    }
  }

  lemma TakePrefix<T>(xs: seq<T>, n: nat, m: nat)
    requires n <= m
    ensures Take(xs, n) <= Take(xs, m)
  {
  }

  lemma TakePrepend<T>(x: T, xs: seq<T>, n: nat)
    requires n > 0
    ensures Take([x] + xs, n) == [x] + Take(xs, n - 1)
  {
  }

  /** Of the first `n` elements, removing `u` before or after the cut leaves the same first `n - 1`. */
  lemma {:induction false} RemoveTake<T>(xs: seq<T>, u: T, n: nat)
    requires n > 0
    ensures Take(Remove(Take(xs, n), u), n - 1) == Take(Remove(xs, u), n - 1)
    decreases n
  {
    if xs == [] || n == 1 {
    } else {
      var x, rest := xs[0], xs[1..];
      assert xs == [x] + rest;
      TakePrepend(x, rest, n);
      assert Take(xs, n)[1..] == Take(rest, n - 1);
      if x != u {
        RemoveTake(rest, u, n - 1);
        TakePrepend(x, Remove(Take(rest, n - 1), u), n - 1);
        TakePrepend(x, Remove(rest, u), n - 1);
      }
    }
  }

  /** Keeping `n` elements before moving `u` to the front loses nothing of the first `n` afterwards. */
  lemma TakeMoved<T>(xs: seq<T>, u: T, n: nat)
    requires n > 0
    ensures Take([u] + Remove(Take(xs, n), u), n) == Take([u] + Remove(xs, u), n)
  {
    RemoveTake(xs, u, n);
    TakePrepend(u, Remove(Take(xs, n), u), n);
    TakePrepend(u, Remove(xs, u), n);
  }

  /** A sequence without repeats has each of its elements once. */
  lemma {:induction false} DistinctCount<T>(xs: seq<T>, x: T)
    requires Distinct(xs)
    ensures multiset(xs)[x] == if x in xs then 1 else 0
  {
    if xs == [] {
    } else {
      var n := |xs| - 1;
      DistinctCount(xs[..n], x);
      assert xs == xs[..n] + [xs[n]];
      assert xs[n] !in xs[..n];
    }
  }

  /** A sequence without repeats has as many elements as it is long. */
  lemma {:induction false} DistinctSize<T>(xs: seq<T>)
    requires Distinct(xs)
    ensures |Elements(xs)| == |xs|
  {
    if xs == [] {
    } else {
      var n := |xs| - 1;
      DistinctSize(xs[..n]);
      assert xs == xs[..n] + [xs[n]];
      assert Elements(xs) == Elements(xs[..n]) + {xs[n]};
      assert xs[n] !in xs[..n];
    }
  }
}
