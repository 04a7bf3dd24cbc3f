/** Python slices with a negative start, and the bounded deques built from them. */
module Sequences {

  datatype Option<+T> = None | Some(value: T)

  /** The last `n` elements: `xs[-n:]` for a positive `n`, and a deque with `maxlen=n`. */
  function LastN<T>(xs: seq<T>, n: nat): (r: seq<T>)
    ensures |r| == (if |xs| <= n then |xs| else n)
  {
    if |xs| <= n then xs else xs[|xs| - n..]
  }

  /** Python's `xs[-m:]` for every integer `m`: the whole list when `m` is zero,
      and `xs` without its first `-m` elements when `m` is negative. */
  function NegativeSlice<T>(xs: seq<T>, m: int): seq<T>
  {
    if m > 0 then LastN(xs, m)
    else if -m <= |xs| then xs[-m..]
    else []
  }

  /** `xs[:n]` */
  function Take<T>(xs: seq<T>, n: nat): (r: seq<T>)
    ensures |r| == (if n <= |xs| then n else |xs|)
    ensures r == xs <==> |xs| <= n
  {
    if n <= |xs| then xs[..n] else xs
  }

  ghost predicate Distinct<T>(xs: seq<T>)
  {
    forall i, j :: 0 <= i < j < |xs| ==> xs[i] != xs[j]
  }

  /** A bounded buffer loses nothing by being bounded early. */
  lemma LastNAppend<T>(xs: seq<T>, ys: seq<T>, n: nat)
    ensures LastN(LastN(xs, n) + ys, n) == LastN(xs + ys, n)
  {
  }

  lemma LastNMembers<T>(xs: seq<T>, n: nat)
    ensures forall x <- LastN(xs, n) :: x in xs
  {
  }

  lemma LastNOfLastN<T>(xs: seq<T>, m: nat, n: nat)
    requires n <= m
    ensures LastN(LastN(xs, m), n) == LastN(xs, n)
  {
  }

  function OneOrNone<T>(x: Option<T>): seq<T> { if x.Some? then [x.value] else [] }

  /** The results of `f` on the elements of `xs` that it accepts, in order. */
  function FilterMap<A, B>(xs: seq<A>, f: A -> Option<B>): seq<B>
  {
    if xs == [] then [] else FilterMap(xs[..|xs| - 1], f) + OneOrNone(f(xs[|xs| - 1]))
  }

  lemma FilterMapSnoc<A, B>(xs: seq<A>, x: A, f: A -> Option<B>)
    ensures FilterMap(xs + [x], f) == FilterMap(xs, f) + OneOrNone(f(x))
  {
    assert (xs + [x])[..|xs|] == xs;
  }

  lemma {:induction false} FilterMapConcat<A, B>(a: seq<A>, b: seq<A>, f: A -> Option<B>)
    ensures FilterMap(a + b, f) == FilterMap(a, f) + FilterMap(b, f)
  {
    if b == [] {
      assert a + b == a;
    } else {
      var front, x := b[..|b| - 1], b[|b| - 1];
      assert b == front + [x];
      calc {
        FilterMap(a + b, f);
        { assert a + b == (a + front) + [x]; FilterMapSnoc(a + front, x, f); }
        FilterMap(a + front, f) + OneOrNone(f(x));
        { FilterMapConcat(a, front, f); }
        FilterMap(a, f) + (FilterMap(front, f) + OneOrNone(f(x)));
        { FilterMapSnoc(front, x, f); }
        FilterMap(a, f) + FilterMap(b, f);
      }
    }
  }

  lemma {:induction false} FilterMapAll<A, B>(xs: seq<A>, f: A -> Option<B>)
    requires forall i :: 0 <= i < |xs| ==> f(xs[i]).Some?
    ensures |FilterMap(xs, f)| == |xs|
  {
    if xs != [] {
      FilterMapAll(xs[..|xs| - 1], f);
    }
  }

  function Keep<T>(xs: seq<T>, wanted: T -> bool): seq<T>
  {
    if xs == [] then [] else (if wanted(xs[0]) then [xs[0]] else []) + Keep(xs[1..], wanted)
  }

  lemma {:induction false} KeepMembers<T>(xs: seq<T>, wanted: T -> bool)
    ensures forall x :: x in Keep(xs, wanted) <==> x in xs && wanted(x)
    ensures |Keep(xs, wanted)| <= |xs|
  {
    if xs != [] {
      KeepMembers(xs[1..], wanted);
      assert xs == [xs[0]] + xs[1..];
    }
  }

  /** `[x for x in xs if wanted(x)]` */
  method KeepLoop<T>(xs: seq<T>, wanted: T -> bool) returns (kept: seq<T>)
    ensures kept == Keep(xs, wanted)
  {
    kept := [];
    for i := 0 to |xs|
      invariant kept + Keep(xs[i..], wanted) == Keep(xs, wanted)
    {
      assert xs[i..][1..] == xs[i + 1..];
      if wanted(xs[i]) {
        kept := kept + [xs[i]];
      }
    }
  }

  lemma {:induction false} KeepEverything<T>(xs: seq<T>, wanted: T -> bool)
    requires forall x <- xs :: wanted(x)
    ensures Keep(xs, wanted) == xs
  {
    if xs != [] {
      assert xs[0] in xs && forall x <- xs[1..] :: x in xs;
      KeepEverything(xs[1..], wanted);
    }
  }

  lemma {:induction false} KeepSnoc<T>(xs: seq<T>, x: T, wanted: T -> bool)
    ensures Keep(xs + [x], wanted) == Keep(xs, wanted) + if wanted(x) then [x] else []
  {
    if xs == [] {
      assert xs + [x] == [x] && [x][1..] == [];
    } else {
      var first, last := if wanted(xs[0]) then [xs[0]] else [], if wanted(x) then [x] else [];
      assert (xs + [x])[1..] == xs[1..] + [x] && (xs + [x])[0] == xs[0];
      KeepSnoc(xs[1..], x, wanted);
      assert first + (Keep(xs[1..], wanted) + last) == (first + Keep(xs[1..], wanted)) + last;
    }
  }

  lemma {:induction false} KeepTwice<T>(xs: seq<T>, first: T -> bool, second: T -> bool)
    requires forall x <- xs :: second(x) ==> first(x)
    ensures Keep(Keep(xs, first), second) == Keep(xs, second)
  {
    if xs != [] {
      assert xs[0] in xs && forall x <- xs[1..] :: x in xs;
      KeepTwice(xs[1..], first, second);
      var rest := Keep(xs[1..], first);
      if first(xs[0]) {
        assert Keep(xs, first) == [xs[0]] + rest && ([xs[0]] + rest)[1..] == rest;
      } else {
        assert Keep(xs, first) == rest;
      }
    }
  }

  /** `[y for x in xs if (y := f(x)) is not None]` */
  method FilterMapLoop<A, B>(xs: seq<A>, f: A -> Option<B>) returns (ys: seq<B>)
    ensures ys == FilterMap(xs, f)
  {
    ys := [];
    for i := 0 to |xs|
      invariant ys == FilterMap(xs[..i], f)
    {
      assert xs[..i + 1][..i] == xs[..i];
      var y := f(xs[i]);
      if y.Some? {
        ys := ys + [y.value];
      }
    }
    assert xs[..|xs|] == xs;
  }

  lemma SuffixOfConcat<T>(head: seq<T>, tail: seq<T>)
    ensures (head + tail)[|head + tail| - |tail|..] == tail
  {
  }

  lemma NothingMore<T>(xs: seq<T>, n: nat)
    requires |xs| <= n
    ensures LastN(xs + [], n) == xs
  {
    assert xs + [] == xs;
  }

  lemma BoundedStep<T>(start: seq<T>, ys: seq<T>, y: seq<T>, zs: seq<T>, n: nat)
    requires zs == ys + y
    ensures LastN(LastN(start + ys, n) + y, n) == LastN(start + zs, n)
  {
    LastNAppend(start + ys, y, n);
    assert start + ys + y == start + zs;
  }
}
