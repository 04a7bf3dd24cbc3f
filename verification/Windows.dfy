/** The end of an ascending sequence, seen through a window that shows only part of it. */
module Windows {
  import opened Sequences

  ghost predicate Asymmetric<T(!new)>(lt: (T, T) -> bool)
  {
    forall x, y :: !(lt(x, y) && lt(y, x))
  }

  ghost predicate Ascending<T>(xs: seq<T>, lt: (T, T) -> bool)
  {
    forall i, j :: 0 <= i < j < |xs| ==> lt(xs[i], xs[j])
  }

  ghost predicate Within<T>(xs: seq<T>, ys: seq<T>)
  {
    forall x <- xs :: x in ys
  }

  /** The position of an element tells which elements are smaller and which are greater. */
  lemma PrefixMembers<T(!new)>(xs: seq<T>, k: nat, x: T, lt: (T, T) -> bool)
    requires Asymmetric(lt) && Ascending(xs, lt) && k < |xs|
    ensures x in xs[..k] <==> x in xs && lt(x, xs[k])
    ensures x in xs[k + 1..] <==> x in xs && lt(xs[k], x)
    ensures x in xs && x != xs[k] ==> lt(x, xs[k]) || lt(xs[k], x)
  {
    if x in xs {
      var i :| 0 <= i < |xs| && xs[i] == x;
      if i < k {
        assert xs[..k][i] == x;
      } else if i > k {
        assert xs[k + 1..][i - k - 1] == x;
      }
    }
  }

  /** An ascending sequence inside another is not longer. */
  lemma {:induction false} AscendingPartIsShorter<T(!new)>(a: seq<T>, b: seq<T>, lt: (T, T) -> bool)
    requires Asymmetric(lt) && Ascending(a, lt) && Ascending(b, lt) && Within(a, b)
    ensures |a| <= |b|
  {
    if a != [] {
      var n := |a| - 1;
      assert a[n] in a;
      var k :| 0 <= k < |b| && b[k] == a[n];
      forall x | x in a[..n]
        ensures x in b[..k]
      {
        PrefixMembers(a, n, x, lt);
        PrefixMembers(b, k, x, lt);
      }
      AscendingPartIsShorter(a[..n], b[..k], lt);
    }
  }

  lemma LastOfPart<T(!new)>(all: seq<T>, part: seq<T>, lt: (T, T) -> bool)
    requires Asymmetric(lt) && Ascending(all, lt) && Ascending(part, lt) && all != []
    requires Within(part, all) && all[|all| - 1] in part
    ensures part != [] && part[|part| - 1] == all[|all| - 1]
  {
    var n, m := |all| - 1, |part| - 1;
    assert part[m] in part;
    PrefixMembers(all, n, part[m], lt);
    PrefixMembers(part, m, all[n], lt);
  }

  lemma LastNSnoc<T>(xs: seq<T>, k: nat)
    requires k > 0 && xs != []
    ensures LastN(xs, k) == LastN(xs[..|xs| - 1], k - 1) + [xs[|xs| - 1]]
  {
  }

  /** Dropping a common last element keeps inclusion. */
  lemma WithoutLast<T(!new)>(xs: seq<T>, ys: seq<T>, lt: (T, T) -> bool)
    requires Asymmetric(lt) && Ascending(xs, lt) && Ascending(ys, lt) && xs != [] && ys != []
    requires xs[|xs| - 1] == ys[|ys| - 1] && Within(xs, ys)
    ensures Within(xs[..|xs| - 1], ys[..|ys| - 1])
  {
    var front := xs[..|xs| - 1];
    forall x | x in front
      ensures x in ys[..|ys| - 1]
    {
      PrefixMembers(xs, |xs| - 1, x, lt);
      PrefixMembers(ys, |ys| - 1, x, lt);
    }
  }

  lemma LastNAscends<T>(xs: seq<T>, k: nat, lt: (T, T) -> bool)
    requires Ascending(xs, lt)
    ensures Ascending(LastN(xs, k), lt)
  {
  }

  /** The last `k` of an ascending sequence are also the last `k` of any part of it that
      still holds them. */
  lemma {:induction false} LastNOfPart<T(!new)>(all: seq<T>, part: seq<T>, k: nat, lt: (T, T) -> bool)
    requires Asymmetric(lt) && Ascending(all, lt) && Ascending(part, lt)
    requires Within(part, all) && Within(LastN(all, k), part)
    ensures LastN(part, k) == LastN(all, k)
  {
    if all == [] {
      AscendingPartIsShorter(part, all, lt);
    } else if k > 0 {
      LastNOfPartStep(all, part, k, lt);
      LastNOfPart(all[..|all| - 1], part[..|part| - 1], k - 1, lt);
      LastNSnoc(all, k);
      LastNSnoc(part, k);
    }
  }

  lemma LastNOfPartStep<T(!new)>(all: seq<T>, part: seq<T>, k: nat, lt: (T, T) -> bool)
    requires Asymmetric(lt) && Ascending(all, lt) && Ascending(part, lt) && all != [] && k > 0
    requires Within(part, all) && Within(LastN(all, k), part)
    ensures part != [] && part[|part| - 1] == all[|all| - 1]
    ensures Within(part[..|part| - 1], all[..|all| - 1])
    ensures Within(LastN(all[..|all| - 1], k - 1), part[..|part| - 1])
  {
    var latest := LastN(all, k);
    LastNSnoc(all, k);
    assert latest[|latest| - 1] == all[|all| - 1];
    LastOfPart(all, part, lt);
    WithoutLast(part, all, lt);
    LastNAscends(all, k, lt);
    WithoutLast(latest, part, lt);
  }

  /** `window` is the end of `whole` and has at least `k` elements, or is all of it. */
  ghost predicate Covers<T>(window: seq<T>, whole: seq<T>, k: nat)
  {
    && |window| <= |whole| && whole[|whole| - |window|..] == window
    && (k <= |window| || window == whole)
  }

  /** What lies before a window is smaller than everything in it. */
  lemma WindowIsGreater<T(!new)>(whole: seq<T>, window: seq<T>, x: T, lt: (T, T) -> bool)
    requires Ascending(whole, lt) && x in whole && x !in window
    requires |window| <= |whole| && whole[|whole| - |window|..] == window
    ensures forall y <- window :: lt(x, y)
    ensures Ascending(window, lt) && Within(window, whole)
  {
    var offset := |whole| - |window|;
    assert whole == whole[..offset] + window;
    var i :| 0 <= i < offset && whole[i] == x;
    assert forall j :: 0 <= j < |window| ==> window[j] == whole[offset + j];
  }

  /** Elements greater than the one at `g` lie behind it. */
  lemma GreaterLiesBehind<T(!new)>(all: seq<T>, g: nat, window: seq<T>, lt: (T, T) -> bool)
    requires Asymmetric(lt) && Ascending(all, lt) && g < |all|
    requires Within(window, all) && forall y <- window :: lt(all[g], y)
    ensures Within(window, all[g + 1..])
  {
    forall y | y in window
      ensures y in all[g + 1..]
    {
      PrefixMembers(all, g, y, lt);
    }
  }

  lemma PositionInLastN<T>(all: seq<T>, k: nat, x: T) returns (g: nat)
    requires x in LastN(all, k)
    ensures g < |all| && all[g] == x && |all| - g <= k
  {
    var r :| 0 <= r < |LastN(all, k)| && LastN(all, k)[r] == x;
    g := |all| - |LastN(all, k)| + r;
  }

  /** An element of a source that is not in its window has at least `k` greater ones. */
  lemma LatestAreInWindow<T(!new)>(all: seq<T>, whole: seq<T>, window: seq<T>, k: nat, x: T, lt: (T, T) -> bool)
    requires Asymmetric(lt) && Ascending(all, lt) && Ascending(whole, lt) && Covers(window, whole, k)
    requires Within(whole, all)
    requires x in whole && x in LastN(all, k)
    ensures x in window
  {
    if x !in window {
      var g := PositionInLastN(all, k, x);
      WindowIsGreater(whole, window, x, lt);
      GreaterLiesBehind(all, g, window, lt);
      AscendingPartIsShorter(window, all[g + 1..], lt);
      assert false;
    }
  }

  /** A part gives the right last `k` elements if and only if everything it misses is smaller
      than all `k` of those it gives. */
  lemma LastNOfPartIff<T(!new)>(all: seq<T>, part: seq<T>, k: nat, lt: (T, T) -> bool)
    requires Asymmetric(lt) && Ascending(all, lt) && Ascending(part, lt) && Within(part, all)
    ensures LastN(part, k) == LastN(all, k) <==>
      forall x <- all :: x !in part ==> |part| >= k && forall y <- LastN(part, k) :: lt(x, y)
  {
    if LastN(part, k) == LastN(all, k) {
      forall x | x in all && x !in part
        ensures |part| >= k && forall y <- LastN(part, k) :: lt(x, y)
      {
        assert part == part[..|part| - |LastN(part, k)|] + LastN(part, k);
        WindowIsGreater(all, LastN(all, k), x, lt);
      }
    }
    if forall x <- all :: x !in part ==> |part| >= k && forall y <- LastN(part, k) :: lt(x, y) {
      forall x | x in LastN(all, k)
        ensures x in part
      {
        MissedIsNotLatest(all, part, k, x, lt);
      }
      LastNOfPart(all, part, k, lt);
    }
  }

  lemma MissedIsNotLatest<T(!new)>(all: seq<T>, part: seq<T>, k: nat, x: T, lt: (T, T) -> bool)
    requires Asymmetric(lt) && Ascending(all, lt) && Ascending(part, lt) && Within(part, all)
    requires x in LastN(all, k)
    requires x !in part ==> |part| >= k && forall y <- LastN(part, k) :: lt(x, y)
    ensures x in part
  {
    if x !in part {
      var g := PositionInLastN(all, k, x);
      var latest := LastN(part, k);
      LastNAscends(part, k, lt);
      assert part == part[..|part| - |latest|] + latest;
      GreaterLiesBehind(all, g, latest, lt);
      AscendingPartIsShorter(latest, all[g + 1..], lt);
      assert false;
    }
  }

  // ---------------------------------------------------------------- counting what is later

  ghost function Elements<T>(xs: seq<T>): set<T> { set x | x in xs }

  /** The elements of `xs` that are greater than `x`. */
  ghost function Later<T>(xs: seq<T>, x: T, lt: (T, T) -> bool): set<T> { set y | y in xs && lt(x, y) }

  lemma {:induction false} AscendingSize<T(!new)>(xs: seq<T>, lt: (T, T) -> bool)
    requires Asymmetric(lt) && Ascending(xs, lt)
    ensures |Elements(xs)| == |xs|
  {
    if xs != [] {
      var n := |xs| - 1;
      AscendingSize(xs[..n], lt);
      PrefixMembers(xs, n, xs[n], lt);
      assert Elements(xs) == Elements(xs[..n]) + {xs[n]};
    }
  }

  lemma {:induction false} SubsetSize<T>(a: set<T>, b: set<T>)
    requires a <= b
    ensures |a| <= |b|
  {
    if a != {} {
      var x :| x in a;
      SubsetSize(a - {x}, b - {x});
    }
  }

  /** Elements greater than all of the last `k` of `part` cannot be fewer than `k` later. */
  lemma ManyLater<T(!new)>(part: seq<T>, k: nat, x: T, lt: (T, T) -> bool)
    requires Asymmetric(lt) && Ascending(part, lt)
    requires |part| >= k && forall y <- LastN(part, k) :: lt(x, y)
    ensures |Later(part, x, lt)| >= k
  {
    var latest := LastN(part, k);
    assert part == part[..|part| - k] + latest;
    LastNAscends(part, k, lt);
    AscendingSize(latest, lt);
    SubsetSize(Elements(latest), Later(part, x, lt));
  }

  lemma FewLater<T(!new)>(all: seq<T>, part: seq<T>, k: nat, x: T, y: T, lt: (T, T) -> bool)
    requires Asymmetric(lt) && Ascending(all, lt) && Ascending(part, lt) && Within(part, all)
    requires x in all && y in LastN(part, k) && lt(y, x)
    ensures |Later(part, x, lt)| < k
  {
    var i := PositionInLastN(part, k, y);
    var g :| 0 <= g < |all| && all[g] == x;
    assert part[i] in part;
    PrefixMembers(all, g, y, lt);
    forall z | z in Later(part, x, lt)
      ensures z in Elements(part[i + 1..])
    {
      PrefixMembers(all, g, z, lt);
      InOrder(all, g, y, z, lt);
      PrefixMembers(part, i, z, lt);
    }
    AscendingSize(part[i + 1..], lt);
    SubsetSize(Later(part, x, lt), Elements(part[i + 1..]));
  }

  lemma InOrder<T(!new)>(all: seq<T>, g: nat, y: T, z: T, lt: (T, T) -> bool)
    requires Ascending(all, lt) && g < |all| && y in all[..g] && z in all[g + 1..]
    ensures lt(y, z)
  {
    var i :| 0 <= i < g && all[..g][i] == y;
    var j :| 0 <= j < |all| - g - 1 && all[g + 1..][j] == z;
    assert all[i] == y && all[g + 1 + j] == z;
  }

  /** For an element that `part` misses: all of the last `k` of `part` are greater if and only
      if at least `k` elements of `part` are. */
  lemma LaterIff<T(!new)>(all: seq<T>, part: seq<T>, k: nat, x: T, lt: (T, T) -> bool)
    requires Asymmetric(lt) && Ascending(all, lt) && Ascending(part, lt) && Within(part, all)
    requires x in all && x !in part
    ensures |Later(part, x, lt)| >= k <==> |part| >= k && forall y <- LastN(part, k) :: lt(x, y)
  {
    AscendingSize(part, lt);
    SubsetSize(Later(part, x, lt), Elements(part));
    if |part| >= k && forall y <- LastN(part, k) :: lt(x, y) {
      ManyLater(part, k, x, lt);
    } else if |part| >= k {
      var y :| y in LastN(part, k) && !lt(x, y);
      assert part == part[..|part| - k] + LastN(part, k);
      var g :| 0 <= g < |all| && all[g] == x;
      PrefixMembers(all, g, y, lt);
      FewLater(all, part, k, x, y, lt);
    }
  }

  /** A part gives the right last `k` elements if and only if it has at least `k` elements
      greater than each one it misses. */
  lemma LastNOfPartIffLater<T(!new)>(all: seq<T>, part: seq<T>, k: nat, lt: (T, T) -> bool)
    requires Asymmetric(lt) && Ascending(all, lt) && Ascending(part, lt) && Within(part, all)
    ensures LastN(part, k) == LastN(all, k) <==> forall x <- all :: x !in part ==> |Later(part, x, lt)| >= k
  {
    LastNOfPartIff(all, part, k, lt);
    forall x | x in all && x !in part
      ensures |Later(part, x, lt)| >= k <==> |part| >= k && forall y <- LastN(part, k) :: lt(x, y)
    {
      LaterIff(all, part, k, x, lt);
    }
  }

  /** Filtering keeps the order. */
  lemma {:induction false} KeepAscends<T(!new)>(xs: seq<T>, wanted: T -> bool, lt: (T, T) -> bool)
    requires Ascending(xs, lt)
    ensures Ascending(Keep(xs, wanted), lt)
    ensures forall x :: x in Keep(xs, wanted) <==> x in xs && wanted(x)
  {
    if xs != [] {
      var rest := Keep(xs[1..], wanted);
      assert xs == [xs[0]] + xs[1..];
      KeepAscends(xs[1..], wanted, lt);
      forall x | x in rest
        ensures lt(xs[0], x)
      {
        assert x in xs[1..];
        var i :| 0 <= i < |xs[1..]| && xs[1..][i] == x;
        assert x == xs[i + 1];
      }
    }
  }
}
