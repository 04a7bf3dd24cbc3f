/** Environment overrides that hold for the time of a `with` block. */
module EnvOverrides {
  import opened OrderedDict
  import opened Sequences

  type Vars = map<string, string>
  type Overrides = Dict<string, string>

  function Keys(overrides: Overrides): set<string> { set o | o in overrides :: o.0 }

  function Get(vars: Vars, key: string): Option<string> { if key in vars then Some(vars[key]) else None }

  function SetOrRemove(vars: Vars, key: string, value: Option<string>): Vars
  {
    if value == None then vars - {key} else vars[key := value.value]
  }

  function Overridden(vars: Vars, overrides: Overrides): Vars
  {
    if overrides == [] then vars
    else
      var last := overrides[|overrides| - 1];
      Overridden(vars, overrides[..|overrides| - 1])[last.0 := last.1]
  }

  /** How many overrides are set before the first that the operating system refuses. */
  function SetCount(overrides: Overrides, settable: ((string, string)) -> bool): (n: nat)
    ensures n <= |overrides|
    ensures forall i :: 0 <= i < n ==> settable(overrides[i])
    ensures n < |overrides| ==> !settable(overrides[n])
  {
    if overrides == [] || !settable(overrides[0]) then 0 else 1 + SetCount(overrides[1..], settable)
  }

  /** `after` with the overridden keys as they were in `before`. */
  ghost predicate Restored(before: Vars, after: Vars, result: Vars, keys: set<string>)
  {
    forall k :: Get(result, k) == if k in keys then Get(before, k) else Get(after, k)
  }

  lemma {:induction false} OverriddenMeaning(vars: Vars, overrides: Overrides, k: string)
    ensures k !in Keys(overrides) ==> Get(Overridden(vars, overrides), k) == Get(vars, k)
    ensures forall i :: 0 <= i < |overrides| && overrides[i].0 == k && UniqueKeys(overrides) ==>
      Get(Overridden(vars, overrides), k) == Some(overrides[i].1)
  {
    if overrides != [] {
      var front, last := overrides[..|overrides| - 1], overrides[|overrides| - 1];
      assert last in overrides && forall o <- front :: o in overrides;
      OverriddenMeaning(vars, front, k);
      assert k in Keys(front) ==> k in Keys(overrides);
      assert last.0 in Keys(overrides);
    }
  }

  // ---------------------------------------------------------------- the context manager

  class Environ {
    var vars: Vars

    constructor (vars: Vars)
      ensures this.vars == vars
    {
      this.vars := vars;
    }

    /** The part of `temporary_env_overrides` before its `yield`. The loop stands outside the
        `try`: when one assignment raises, the earlier ones stay. */
    method Enter(overrides: Overrides, settable: ((string, string)) -> bool)
        returns (previous: seq<(string, Option<string>)>, raised: bool)
      requires UniqueKeys(overrides)
      modifies this
      ensures var n := SetCount(overrides, settable);
        && (raised <==> n < |overrides|)
        && vars == Overridden(old(vars), overrides[..n])
      ensures !raised ==>
        && |previous| == |overrides|
        && forall i :: 0 <= i < |previous| ==> previous[i] == (overrides[i].0, Get(old(vars), overrides[i].0))
    {
      previous, raised := [], false;
      for i := 0 to |overrides|
        invariant i <= SetCount(overrides, settable)
        invariant vars == Overridden(old(vars), overrides[..i])
        invariant |previous| == i
        invariant forall k :: 0 <= k < i ==> previous[k] == (overrides[k].0, Get(old(vars), overrides[k].0))
      {
        var (key, value) := overrides[i];
        assert overrides[..i + 1][..i] == overrides[..i];
        assert key !in Keys(overrides[..i]);
        OverriddenMeaning(old(vars), overrides[..i], key);
        previous := previous + [(key, Get(vars, key))];
        if !settable(overrides[i]) {
          return previous, true;
        }
        vars := vars[key := value];
      }
      assert overrides[..|overrides|] == overrides;
    }

    /** The `finally` part. */
    method Leave(previous: seq<(string, Option<string>)>, ghost before: Vars)
      requires forall i :: 0 <= i < |previous| ==> previous[i].1 == Get(before, previous[i].0)
      modifies this
      ensures Restored(before, old(vars), vars, set p | p in previous :: p.0)
    {
      for i := 0 to |previous|
        invariant Restored(before, old(vars), vars, set p | p in previous[..i] :: p.0)
      {
        var (key, value) := previous[i];
        assert previous[..i + 1] == previous[..i] + [previous[i]];
        assert (set p | p in previous[..i + 1] :: p.0) == (set p | p in previous[..i] :: p.0) + {key};
        vars := SetOrRemove(vars, key, value);
      }
      assert previous[..|previous|] == previous;
    }
  }

  // ---------------------------------------------------------------- nesting

  /** Code that changes the environment, with `with` blocks in it; `Raise` leaves the block. */
  datatype Code =
    | Skip
    | Set(key: string, value: string)
    | Unset(key: string)
    | Raise
    | Then(first: Code, second: Code)
    | With(overrides: Overrides, body: Code)

  datatype Outcome = Outcome(vars: Vars, raised: bool)

  function Restore(before: Vars, after: Vars, overrides: Overrides): Vars
  {
    if overrides == [] then after
    else
      var last := overrides[|overrides| - 1].0;
      SetOrRemove(Restore(before, after, overrides[..|overrides| - 1]), last, Get(before, last))
  }

  function Exec(c: Code, vars: Vars, settable: ((string, string)) -> bool): Outcome
  {
    match c
    case Skip => Outcome(vars, false)
    case Set(key, value) => Outcome(vars[key := value], false)
    case Unset(key) => Outcome(vars - {key}, false)
    case Raise => Outcome(vars, true)
    case Then(first, second) =>
      var r := Exec(first, vars, settable);
      if r.raised then r else Exec(second, r.vars, settable)
    case With(overrides, body) =>
      var n := SetCount(overrides, settable);
      if n < |overrides| then Outcome(Overridden(vars, overrides[..n]), true)
      else
        var r := Exec(body, Overridden(vars, overrides), settable);
        Outcome(Restore(vars, r.vars, overrides), r.raised)
  }

  /** Every `with` block enters, and its overrides are a dict. */
  ghost predicate Enters(c: Code, settable: ((string, string)) -> bool)
  {
    match c
    case Then(first, second) => Enters(first, settable) && Enters(second, settable)
    case With(overrides, body) =>
      UniqueKeys(overrides) && SetCount(overrides, settable) == |overrides| && Enters(body, settable)
    case _ => true
  }

  /** The keys that code changes without an enclosing override of the same key in it. */
  function Exposed(c: Code): set<string>
  {
    match c
    case Set(key, _) => {key}
    case Unset(key) => {key}
    case Then(first, second) => Exposed(first) + Exposed(second)
    case With(overrides, body) => Exposed(body) - Keys(overrides)
    case _ => {}
  }

  lemma {:induction false} RestoreMeaning(before: Vars, after: Vars, overrides: Overrides, k: string)
    ensures Get(Restore(before, after, overrides), k) == if k in Keys(overrides) then Get(before, k) else Get(after, k)
  {
    if overrides != [] {
      var front, last := overrides[..|overrides| - 1], overrides[|overrides| - 1];
      RestoreMeaning(before, after, front, k);
      assert overrides == front + [last];
      assert Keys(overrides) == Keys(front) + {last.0};
    }
  }

  /** One block: on every exit, normal or raising, each overridden key is as it was before the
      block, whatever the body did to it; every other key is as the body left it. */
  lemma BlockRestores(overrides: Overrides, body: Code, vars: Vars, settable: ((string, string)) -> bool)
    requires SetCount(overrides, settable) == |overrides|
    ensures Restored(vars, Exec(body, Overridden(vars, overrides), settable).vars,
                     Exec(With(overrides, body), vars, settable).vars, Keys(overrides))
    ensures Exec(With(overrides, body), vars, settable).raised
         == Exec(body, Overridden(vars, overrides), settable).raised
  {
    var after := Exec(body, Overridden(vars, overrides), settable).vars;
    forall k
      ensures Get(Restore(vars, after, overrides), k) == if k in Keys(overrides) then Get(vars, k) else Get(after, k)
    {
      RestoreMeaning(vars, after, overrides, k);
    }
  }

  /** Any nesting: a key changes only if some code changes it outside every block that
      overrides it. */
  lemma {:induction false} NestingRestores(c: Code, vars: Vars, settable: ((string, string)) -> bool, k: string)
    requires Enters(c, settable) && k !in Exposed(c)
    ensures Get(Exec(c, vars, settable).vars, k) == Get(vars, k)
  {
    match c
    case Then(first, second) =>
      NestingRestores(first, vars, settable, k);
      var r := Exec(first, vars, settable);
      if !r.raised {
        NestingRestores(second, r.vars, settable, k);
      }
    case With(overrides, body) =>
      var inner := Overridden(vars, overrides);
      RestoreMeaning(vars, Exec(body, inner, settable).vars, overrides, k);
      if k !in Keys(overrides) {
        NestingRestores(body, inner, settable, k);
        OverriddenMeaning(vars, overrides, k);
      }
    case _ =>
  }

  predicate HasRaise(c: Code)
  {
    match c
    case Raise => true
    case Then(first, second) => HasRaise(first) || HasRaise(second)
    case With(_, body) => HasRaise(body)
    case _ => false
  }

  /** No block swallows an exception or makes one: if every block enters, code raises if and only if
      something in it does. */
  lemma {:induction false} RaisedIff(c: Code, vars: Vars, settable: ((string, string)) -> bool)
    requires Enters(c, settable)
    ensures Exec(c, vars, settable).raised <==> HasRaise(c)
  {
    match c
    case Then(first, second) =>
      RaisedIff(first, vars, settable);
      RaisedIff(second, Exec(first, vars, settable).vars, settable);
    case With(overrides, body) => RaisedIff(body, Overridden(vars, overrides), settable);
    case _ =>
  }

  /** A block that cannot enter leaves the overrides set so far in place. It changes nothing
      exactly when each of those was the value already there. */
  lemma FailedEntryLeaks(overrides: Overrides, body: Code, vars: Vars, settable: ((string, string)) -> bool)
    requires UniqueKeys(overrides) && SetCount(overrides, settable) < |overrides|
    ensures var n := SetCount(overrides, settable);
      Exec(With(overrides, body), vars, settable).vars == vars <==>
        forall i :: 0 <= i < n ==> Get(vars, overrides[i].0) == Some(overrides[i].1)
  {
    var n := SetCount(overrides, settable);
    var set_ := overrides[..n];
    var after := Overridden(vars, set_);
    forall i | 0 <= i < n
      ensures Get(after, overrides[i].0) == Some(overrides[i].1)
    {
      assert set_[i] == overrides[i];
      OverriddenMeaning(vars, set_, overrides[i].0);
    }
    if forall i :: 0 <= i < n ==> Get(vars, overrides[i].0) == Some(overrides[i].1) {
      forall k
        ensures Get(after, k) == Get(vars, k)
      {
        OverriddenMeaning(vars, set_, k);
        if k in Keys(set_) {
          var o :| o in set_ && o.0 == k;
          var i :| 0 <= i < n && set_[i] == o;
        }
      }
      SameEverywhere(after, vars);
    }
  }

  /** A case: of two overrides only the first can be set, and it stays. */
  lemma HalfEnteredBlockLeaks(a: string, b: string, value: string, other: string, body: Code,
                              settable: ((string, string)) -> bool)
    requires settable((a, value)) && !settable((b, other))
    ensures Exec(With([(a, value), (b, other)], body), map[], settable) == Outcome(map[a := value], true)
  {
    var overrides := [(a, value), (b, other)];
    assert overrides[1..] == [(b, other)];
    assert SetCount(overrides, settable) == 1;
    assert overrides[..1] == [(a, value)] && overrides[..1][..0] == [];
    assert Overridden(map[], overrides[..1]) == map[a := value];
  }

  lemma SameEverywhere(a: Vars, b: Vars)
    requires forall k :: Get(a, k) == Get(b, k)
    ensures a == b
  {
    forall k
      ensures k in a <==> k in b
      ensures k in a ==> a[k] == b[k]
    {
      assert Get(a, k) == Get(b, k);
    }
  }
}
