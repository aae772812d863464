/** Shared vocabulary of the presentation-model library: optional values, the exceptions
    thrown at call sites, and the `distinctUntilChanged` filter that both the lifecycle
    stream and the `State` slot apply. Reactive streams are modelled as the sequence of
    values they emit. */
module Reactive {

  datatype Option<+T> = None | Some(value: T)

  datatype Result<+T, +E> = Success(value: T) | Failure(error: E)

  datatype Outcome<+E> = Pass | Fail(error: E)

  /** The exceptions the library raises when it is misused. */
  datatype Fault = IllegalArgument | IllegalState | UninitializedPropertyAccess

  /** The newest element of a sequence, as a BehaviorRelay reports its value. */
  function LastOf<T>(s: seq<T>): Option<T>
  {
    if s == [] then None else Some(s[|s| - 1])
  }

  function OptionToSeq<T>(o: Option<T>): seq<T>
  {
    match o
    case None => []
    case Some(v) => [v]
  }

  /** `distinctUntilChanged(comparer)`: each element is compared with the element that
      arrived just before it (whether or not that one was passed on) and is dropped when
      the comparer judges the two the same. The comparer is called as `same(previous, next)`. */
  function DistinctUntilChanged<T>(s: seq<T>, same: (T, T) -> bool): (r: seq<T>)
    ensures |r| <= |s|
    ensures |s| > 0 ==> |r| > 0 && r[0] == s[0]
  {
    if |s| <= 1 then s
    else
      var init := DistinctUntilChanged(s[..|s| - 1], same);
      init + (if same(s[|s| - 2], s[|s| - 1]) then [] else [s[|s| - 1]])
  }

  /** `distinctUntilChanged()` with the element type's own equality. */
  function Distinct<T(==)>(s: seq<T>): seq<T>
  {
    DistinctUntilChanged(s, (a: T, b: T) => a == b)
  }

  predicate NoAdjacentDuplicates<T(==)>(s: seq<T>)
  {
    forall i :: 0 < i < |s| ==> s[i - 1] != s[i]
  }

  /** Feeding one more element extends the filtered stream by that element exactly when
      the comparer does not match it with its predecessor. */
  lemma DistinctUntilChangedAppend<T>(s: seq<T>, v: T, same: (T, T) -> bool)
    ensures DistinctUntilChanged(s + [v], same) ==
            DistinctUntilChanged(s, same) + (if s != [] && same(s[|s| - 1], v) then [] else [v])
  {
    var t := s + [v];
    if s != [] {
      assert t[..|t| - 1] == s;
      assert t[|t| - 2] == s[|s| - 1] && t[|t| - 1] == v;
    }
  }

  /** The filter is causal: what it has emitted for a prefix of the input stays a prefix of
      what it emits for the whole input. */
  lemma {:induction false} DistinctUntilChangedPrefix<T>(s: seq<T>, t: seq<T>, same: (T, T) -> bool)
    ensures DistinctUntilChanged(s, same) <= DistinctUntilChanged(s + t, same)
  {
    if t != [] {
      var t' := t[..|t| - 1];
      DistinctUntilChangedPrefix(s, t', same);
      assert s + t == (s + t') + [t[|t| - 1]];
      DistinctUntilChangedAppend(s + t', t[|t| - 1], same);
    } else {
      assert s + t == s;
    }
  }

  /** The instances of symmetry and transitivity that the proof below needs. */
  lemma EquivalenceAt<T>(same: (T, T) -> bool, p: T, q: T, x: T)
    requires forall a, b :: same(a, b) ==> same(b, a)
    requires forall a, b, c :: same(a, b) && same(b, c) ==> same(a, c)
    ensures same(p, q) && same(q, x) ==> same(p, x)
    ensures same(p, q) && same(p, x) ==> same(q, x)
  {
  }

  /** With a comparer that is an equivalence, the newest emitted element is always the
      same as the newest input element, and no two neighbouring emitted elements are the
      same. */
  lemma {:induction false} DistinctUntilChangedSeparatesNeighbours<T>(s: seq<T>, same: (T, T) -> bool)
    requires forall a :: same(a, a)
    requires forall a, b :: same(a, b) ==> same(b, a)
    requires forall a, b, c :: same(a, b) && same(b, c) ==> same(a, c)
    ensures var r := DistinctUntilChanged(s, same);
            && (s != [] ==> same(r[|r| - 1], s[|s| - 1]))
            && (forall i :: 0 < i < |r| ==> !same(r[i - 1], r[i]))
  {
    if |s| > 1 {
      var s' := s[..|s| - 1];
      var r', r := DistinctUntilChanged(s', same), DistinctUntilChanged(s, same);
      var p, q, x := r'[|r'| - 1], s'[|s'| - 1], s[|s| - 1];
      DistinctUntilChangedSeparatesNeighbours(s', same);
      EquivalenceAt(same, p, q, x);
      if same(q, x) {
        assert r == r';
      } else {
        assert r == r' + [x];
      }
    }
  }

  /** The lifecycle stream never shows the same value twice in a row. */
  lemma DistinctHasNoAdjacentDuplicates<T>(s: seq<T>)
    ensures NoAdjacentDuplicates(Distinct(s))
  {
    DistinctUntilChangedSeparatesNeighbours(s, (a: T, b: T) => a == b);
  }

  /** The newest emitted value is the newest accepted one. */
  lemma DistinctKeepsLast<T>(s: seq<T>)
    ensures LastOf(Distinct(s)) == LastOf(s)
  {
    DistinctUntilChangedSeparatesNeighbours(s, (a: T, b: T) => a == b);
  }

  /** A stream without repeated neighbours passes the filter unchanged. */
  lemma {:induction false} DistinctOfDuplicateFree<T>(s: seq<T>)
    requires NoAdjacentDuplicates(s)
    ensures Distinct(s) == s
  {
    if |s| > 1 {
      var s' := s[..|s| - 1];
      DistinctOfDuplicateFree(s');
      DistinctUntilChangedAppend(s', s[|s| - 1], (a: T, b: T) => a == b);
      assert s' + [s[|s| - 1]] == s;
    }
  }

  /** One more accepted value is shown exactly when it differs from the newest one. */
  lemma DistinctAppend<T>(s: seq<T>, v: T)
    ensures Distinct(s + [v]) == Distinct(s) + (if LastOf(s) == Some(v) then [] else [v])
  {
    DistinctUntilChangedAppend(s, v, (a: T, b: T) => a == b);
  }

  /** Filtering twice is filtering once. */
  lemma DistinctIdempotent<T>(s: seq<T>)
    ensures Distinct(Distinct(s)) == Distinct(s)
  {
    DistinctHasNoAdjacentDuplicates(s);
    DistinctOfDuplicateFree(Distinct(s));
  }

  /** What the lifecycle stream has shown stays a prefix of what it shows later. */
  lemma DistinctPrefix<T>(s: seq<T>, t: seq<T>)
    ensures Distinct(s) <= Distinct(s + t)
  {
    DistinctUntilChangedPrefix(s, t, (a: T, b: T) => a == b);
  }

  /** Accepting the same value twice in a row emits it once. */
  lemma DistinctCollapsesRepeat<T>(s: seq<T>, v: T)
    ensures Distinct(s + [v, v]) == Distinct(s + [v])
  {
    assert s + [v, v] == (s + [v]) + [v];
    DistinctUntilChangedAppend(s + [v], v, (a: T, b: T) => a == b);
  }

  /** A value repeated in the middle of a stream is shown once, whatever follows it. */
  lemma {:induction false} DistinctCollapsesRepeatWithin<T>(s: seq<T>, v: T, t: seq<T>)
    ensures Distinct(s + [v, v] + t) == Distinct(s + [v] + t)
  {
    if t == [] {
      assert s + [v, v] + t == s + [v, v];
      assert s + [v] + t == s + [v];
      DistinctCollapsesRepeat(s, v);
    } else {
      var t', x := t[..|t| - 1], t[|t| - 1];
      DistinctCollapsesRepeatWithin(s, v, t');
      var twice, once := s + [v, v] + t', s + [v] + t';
      assert twice + [x] == s + [v, v] + t;
      assert once + [x] == s + [v] + t;
      if t' == [] {
        assert twice[|twice| - 1] == v == once[|once| - 1];
      } else {
        assert twice[|twice| - 1] == t'[|t'| - 1] == once[|once| - 1];
      }
      DistinctUntilChangedAppend(twice, x, (a: T, b: T) => a == b);
      DistinctUntilChangedAppend(once, x, (a: T, b: T) => a == b);
    }
  }

  /** Every element given twice in a row. */
  function Doubled<T>(s: seq<T>): (r: seq<T>)
    ensures |r| == 2 * |s|
  {
    if s == [] then [] else Doubled(s[..|s| - 1]) + [s[|s| - 1], s[|s| - 1]]
  }

  /** Repeating every call shows the same stream as making each call once. */
  lemma {:induction false} DistinctOfDoubled<T>(s: seq<T>)
    ensures Distinct(Doubled(s)) == Distinct(s)
  {
    if s != [] {
      var init, x := s[..|s| - 1], s[|s| - 1];
      var d := Doubled(init);
      DistinctOfDoubled(init);
      DistinctCollapsesRepeat(d, x);
      DistinctUntilChangedAppend(d, x, (a: T, b: T) => a == b);
      DistinctUntilChangedAppend(init, x, (a: T, b: T) => a == b);
      assert init + [x] == s;
      assert d + [x, x] == Doubled(s);
      if init != [] {
        assert Doubled(init) == Doubled(init[..|init| - 1]) + [init[|init| - 1], init[|init| - 1]];
        assert d[|d| - 1] == init[|init| - 1];
      }
    }
  }
}
