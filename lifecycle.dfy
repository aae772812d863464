/** The presentation model's lifecycle: the six-valued enum, the transition handler that
    runs one hook per distinct value and clears the subscription registries, and the
    parent/child attachment tables. */
module Lifecycles {
  import opened Reactive

  datatype Lifecycle = Created | Binded | Resumed | Paused | Unbinded | Destroyed

  /** The subscriptions a model keeps in its three registries. */
  datatype Disposable =
    | LifecycleHandler        // the model's own transition handler
    | ParentLink              // a child's subscription to its parent's lifecycle
    | NavigationLink          // a child's forwarding of navigation messages to its parent
    | StateSource(state: object)  // a State's subscription to its state source
    | Binding(binding: object)    // one `bindTo` subscription of a view consumer to a State
    | Subscription(id: nat)   // any other subscription registered by user code

  // ---------------------------------------------------------------------------
  // The order in which a host drives a model. The code never checks it; it is the
  // yardstick against which the attach and detach tables are judged below.
  // ---------------------------------------------------------------------------

  predicate IsNext(a: Lifecycle, b: Lifecycle)
  {
    match a
    case Created => b == Binded || b == Destroyed
    case Binded => b == Resumed || b == Unbinded
    case Resumed => b == Paused
    case Paused => b == Resumed || b == Unbinded
    case Unbinded => b == Binded || b == Destroyed
    case Destroyed => false
  }

  predicate LegalPath(s: seq<Lifecycle>)
  {
    forall i :: 0 < i < |s| ==> IsNext(s[i - 1], s[i])
  }

  /** A legal path never repeats a value, so the distinct filter passes it unchanged. */
  lemma LegalPathPassesDistinct(s: seq<Lifecycle>)
    requires LegalPath(s)
    ensures Distinct(s) == s
  {
    assert NoAdjacentDuplicates(s) by {
      forall i | 0 < i < |s| ensures s[i - 1] != s[i] {
        assert IsNext(s[i - 1], s[i]);
      }
    }
    DistinctOfDuplicateFree(s);
  }

  // ---------------------------------------------------------------------------
  // Hooks: the handler subscribes with takeUntil { it == DESTROYED }
  // ---------------------------------------------------------------------------

  /** The part of the emitted stream the transition handler sees: everything up to and
      including the first DESTROYED. */
  function UpToDestroyed(s: seq<Lifecycle>): (r: seq<Lifecycle>)
  {
    if s == [] then []
    else if s[0] == Destroyed then [Destroyed]
    else [s[0]] + UpToDestroyed(s[1..])
  }

  lemma {:induction false} UpToDestroyedAppend(e: seq<Lifecycle>, v: Lifecycle)
    ensures UpToDestroyed(e + [v]) ==
            UpToDestroyed(e) + (if Destroyed in UpToDestroyed(e) then [] else [v])
  {
    if e != [] {
      assert (e + [v])[1..] == e[1..] + [v];
      UpToDestroyedAppend(e[1..], v);
    }
  }

  lemma {:induction false} UpToDestroyedStops(a: seq<Lifecycle>, w: seq<Lifecycle>)
    requires Destroyed in a
    ensures UpToDestroyed(a + w) == UpToDestroyed(a)
  {
    if a[0] != Destroyed {
      assert (a + w)[1..] == a[1..] + w;
      UpToDestroyedStops(a[1..], w);
    }
  }

  lemma {:induction false} UpToDestroyedWhole(s: seq<Lifecycle>)
    ensures Destroyed in UpToDestroyed(s) <==> Destroyed in s
    ensures Destroyed !in s ==> UpToDestroyed(s) == s
  {
    if s != [] && s[0] != Destroyed {
      UpToDestroyedWhole(s[1..]);
      assert s == [s[0]] + s[1..];
    }
  }

  /** Once a hook for DESTROYED has run, no value accepted later runs any hook. */
  lemma HooksStopAfterDestroyed(s: seq<Lifecycle>, t: seq<Lifecycle>)
    requires Destroyed in UpToDestroyed(Distinct(s))
    ensures UpToDestroyed(Distinct(s + t)) == UpToDestroyed(Distinct(s))
  {
    var a := Distinct(s);
    DistinctPrefix(s, t);
    var b := Distinct(s + t);
    assert b == a + b[|a|..];
    UpToDestroyedWhole(a);
    UpToDestroyedStops(a, b[|a|..]);
  }

  // ---------------------------------------------------------------------------
  // attachToParent / detachFromParent tables
  // ---------------------------------------------------------------------------

  /** What a child's lifecycle consumer receives at the moment it is attached, given the
      parent's current value: a synthetic start, then the parent's replayed value unless
      `skip(1)` drops it. Attaching beneath a destroyed parent fails. */
  function AttachPrefix(parentState: Option<Lifecycle>): (r: Result<seq<Lifecycle>, Fault>)
    ensures r.Failure? <==> parentState == Some(Destroyed)
    ensures r.Failure? ==> r.error == IllegalState
    ensures r.Success? ==> r.value <= [Created, Binded, Resumed]
    ensures r.Success? && parentState.Some? ==>
              r.value != [] &&
              forall q :: IsNext(parentState.value, q) ==> IsNext(r.value[|r.value| - 1], q)
    ensures parentState == Some(Created) || parentState == Some(Binded) || parentState == Some(Resumed) ==>
              r.Success? && LastOf(r.value) == parentState
  {
    match parentState
    case None => Success([])
    case Some(Created) => Success([Created])
    case Some(Binded) => Success([Created] + [Binded])
    case Some(Resumed) => Success([Created, Binded] + [Resumed])
    case Some(Paused) => Success([Created, Binded])
    case Some(Unbinded) => Success([Created])
    case Some(Destroyed) => Failure(IllegalState)
  }

  /** A child attached to a parent that then moves on legally goes through a legal
      lifecycle itself, starting at CREATED, and its distinct filter drops nothing. */
  lemma ChildFollowsLegally(p: Lifecycle, later: seq<Lifecycle>)
    requires p != Destroyed
    requires LegalPath([p] + later)
    ensures AttachPrefix(Some(p)).Success?
    ensures var input := AttachPrefix(Some(p)).value + later;
            && input[0] == Created
            && LegalPath(input)
            && Distinct(input) == input
  {
    var prefix := AttachPrefix(Some(p)).value;
    var input := prefix + later;
    assert LegalPath(prefix) by {
      assert prefix <= [Created, Binded, Resumed];
    }
    forall i | 0 < i < |input| ensures IsNext(input[i - 1], input[i]) {
      var parent := [p] + later;
      if i == |prefix| {
        assert IsNext(parent[0], parent[1]);
      } else if i > |prefix| {
        var j := i - |prefix|;
        assert IsNext(parent[j], parent[j + 1]);
      }
    }
    LegalPathPassesDistinct(input);
  }

  /** The transitions `detachFromParent` issues from the current value. */
  function DetachSuffix(current: Option<Lifecycle>): (r: seq<Lifecycle>)
    ensures r == [] <==> current.None? || current == Some(Destroyed)
    ensures r != [] ==>
              && r[|r| - 1] == Destroyed
              && Destroyed !in r[..|r| - 1]
              && LegalPath([current.value] + r)
  {
    match current
    case Some(Created) => [Destroyed]
    case Some(Binded) => [Unbinded, Destroyed]
    case Some(Resumed) => [Paused, Unbinded, Destroyed]
    case Some(Paused) => [Unbinded, Destroyed]
    case Some(Unbinded) => [Destroyed]
    case _ => []
  }

  /** No legal path reaches DESTROYED in fewer steps than `detachFromParent` takes. */
  lemma {:induction false} DetachSuffixIsShortest(path: seq<Lifecycle>)
    requires path != [] && LegalPath(path) && path[|path| - 1] == Destroyed
    ensures |DetachSuffix(Some(path[0]))| <= |path| - 1
  {
    if path[0] != Destroyed {
      assert |path| > 1;
      assert IsNext(path[0], path[1]);
      DetachSuffixIsShortest(path[1..]);
    }
  }

  // ---------------------------------------------------------------------------
  // The model's state and the transition handler, as values
  // ---------------------------------------------------------------------------

  /** Every field of a presentation model at one moment: the lifecycle relay's value, the
      history of accepted values, what the lifecycle stream has shown, the hooks run so far,
      the `unbind` and `paused` relays, and the three registries. */
  datatype ModelState = ModelState(
    lifecycle: Option<Lifecycle>,
    accepted: seq<Lifecycle>,
    emitted: seq<Lifecycle>,
    hooks: seq<Lifecycle>,
    unbind: bool,
    paused: bool,
    compositePause: set<Disposable>,
    compositeUnbind: set<Disposable>,
    compositeDestroy: set<Disposable>)

  /** A freshly constructed model: no lifecycle value, both flags true, and only the
      transition handler's own subscription in the destroy registry. */
  const Initial := ModelState(None, [], [], [], true, true, {}, {}, {LifecycleHandler})

  /** The value of `paused` after the hooks `h` have run: it starts true, RESUMED sets it
      false and PAUSED sets it true. */
  function PausedAfter(h: seq<Lifecycle>): bool
  {
    if h == [] then true
    else if h[|h| - 1] == Resumed then false
    else if h[|h| - 1] == Paused then true
    else PausedAfter(h[..|h| - 1])
  }

  /** The value of `unbind` after the hooks `h` have run: it starts true, BINDED sets it
      false and UNBINDED sets it true. */
  function UnbindAfter(h: seq<Lifecycle>): bool
  {
    if h == [] then true
    else if h[|h| - 1] == Binded then false
    else if h[|h| - 1] == Unbinded then true
    else UnbindAfter(h[..|h| - 1])
  }

  /** How the fields of a model hang together after any sequence of accepted values. */
  ghost predicate Consistent(m: ModelState)
  {
    && m.lifecycle == LastOf(m.accepted)
    && m.emitted == Distinct(m.accepted)
    && m.hooks == UpToDestroyed(m.emitted)
    && m.paused == PausedAfter(m.hooks)
    && m.unbind == UnbindAfter(m.hooks)
    && (Destroyed !in m.hooks ==> LifecycleHandler in m.compositeDestroy)
  }

  /** The transition handler's body for one value it receives: update the flag, clear the
      registry that belongs to the value, then run the value's hook. */
  function Handled(m: ModelState, v: Lifecycle): ModelState
  {
    m.(hooks := m.hooks + [v],
       unbind := if v == Binded then false else if v == Unbinded then true else m.unbind,
       paused := if v == Resumed then false else if v == Paused then true else m.paused,
       compositePause := if v == Paused then {} else m.compositePause,
       compositeUnbind := if v == Unbinded then {} else m.compositeUnbind,
       compositeDestroy := if v == Destroyed then {} else m.compositeDestroy)
  }

  /** Whether accepting `v` runs a hook: the value must pass the distinct filter and the
      handler must not have stopped at DESTROYED. */
  predicate RunsHook(m: ModelState, v: Lifecycle)
  {
    m.lifecycle != Some(v) && Destroyed !in m.hooks
  }

  /** `lifecycleConsumer.accept(v)`: the relay takes the value, the distinct filter passes
      it on unless it repeats the previous one, and the handler reacts to what passes. */
  function Step(m: ModelState, v: Lifecycle): ModelState
  {
    var next := m.(lifecycle := Some(v), accepted := m.accepted + [v],
                   emitted := if m.lifecycle == Some(v) then m.emitted else m.emitted + [v]);
    if RunsHook(m, v) then Handled(next, v) else next
  }

  /** Accepting the values `vs` one after another. */
  function Steps(m: ModelState, vs: seq<Lifecycle>): ModelState
  {
    if vs == [] then m else Step(Steps(m, vs[..|vs| - 1]), vs[|vs| - 1])
  }

  /** Accepting one, two or three values in a row, spelled out. */
  lemma StepsOne(m: ModelState, a: Lifecycle)
    ensures Steps(m, [a]) == Step(m, a)
  {
    assert [a][..0] == [];
  }

  lemma StepsTwo(m: ModelState, a: Lifecycle, b: Lifecycle)
    ensures Steps(m, [a, b]) == Step(Step(m, a), b)
  {
    assert [a, b][..1] == [a];
    StepsOne(m, a);
  }

  lemma StepsThree(m: ModelState, a: Lifecycle, b: Lifecycle, c: Lifecycle)
    ensures Steps(m, [a, b, c]) == Step(Step(Step(m, a), b), c)
  {
    var abc := [a, b, c];
    assert abc[..2] == [a, b];
    assert Steps(m, abc) == Step(Steps(m, [a, b]), c);
    StepsTwo(m, a, b);
  }

  lemma {:induction false} PausedAfterAppend(h: seq<Lifecycle>, v: Lifecycle)
    ensures PausedAfter(h + [v]) == (if v == Resumed then false else if v == Paused then true else PausedAfter(h))
    ensures UnbindAfter(h + [v]) == (if v == Binded then false else if v == Unbinded then true else UnbindAfter(h))
  {
    assert (h + [v])[..|h|] == h;
  }

  /** Accepting any value, legal or not, keeps the fields consistent: the relay holds the
      newest value, the stream is the distinct filter of everything accepted, the hooks are
      that stream cut at DESTROYED, and the flags reflect the hooks. */
  lemma StepConsistent(m: ModelState, v: Lifecycle)
    requires Consistent(m)
    ensures Consistent(Step(m, v))
    ensures Step(m, v).accepted == m.accepted + [v]
  {
    StepStream(m, v);
    StepHooks(m, v);
    StepFlags(m, v);
  }

  /** What one accepted value does to the relay, the history and the stream. */
  lemma StepFields(m: ModelState, v: Lifecycle)
    ensures Step(m, v).accepted == m.accepted + [v]
    ensures Step(m, v).lifecycle == Some(v)
    ensures Step(m, v).emitted == m.emitted + (if m.lifecycle == Some(v) then [] else [v])
  {
  }

  lemma StepStream(m: ModelState, v: Lifecycle)
    requires m.lifecycle == LastOf(m.accepted) && m.emitted == Distinct(m.accepted)
    ensures Step(m, v).lifecycle == LastOf(Step(m, v).accepted)
    ensures Step(m, v).emitted == Distinct(Step(m, v).accepted)
    ensures Step(m, v).accepted == m.accepted + [v]
  {
    StepFields(m, v);
    DistinctAppend(m.accepted, v);
  }

  lemma StepHooks(m: ModelState, v: Lifecycle)
    requires m.hooks == UpToDestroyed(m.emitted)
    ensures Step(m, v).hooks == UpToDestroyed(Step(m, v).emitted)
  {
    UpToDestroyedAppend(m.emitted, v);
  }

  lemma StepFlags(m: ModelState, v: Lifecycle)
    requires m.paused == PausedAfter(m.hooks) && m.unbind == UnbindAfter(m.hooks)
    requires Destroyed !in m.hooks ==> LifecycleHandler in m.compositeDestroy
    ensures Step(m, v).paused == PausedAfter(Step(m, v).hooks)
    ensures Step(m, v).unbind == UnbindAfter(Step(m, v).hooks)
    ensures Destroyed !in Step(m, v).hooks ==> LifecycleHandler in Step(m, v).compositeDestroy
  {
    PausedAfterAppend(m.hooks, v);
  }

  lemma {:induction false} StepsConsistent(m: ModelState, vs: seq<Lifecycle>)
    requires Consistent(m)
    ensures Consistent(Steps(m, vs))
    ensures Steps(m, vs).accepted == m.accepted + vs
  {
    StepsAccepted(m, vs);
    if vs != [] {
      var before := Steps(m, vs[..|vs| - 1]);
      StepsConsistent(m, vs[..|vs| - 1]);
      StepConsistent(before, vs[|vs| - 1]);
      assert Steps(m, vs) == Step(before, vs[|vs| - 1]);
    }
  }

  /** Accepting values appends them to the history, one after another. */
  lemma {:induction false} StepsAccepted(m: ModelState, vs: seq<Lifecycle>)
    ensures Steps(m, vs).accepted == m.accepted + vs
  {
    if vs != [] {
      var init := vs[..|vs| - 1];
      StepsAccepted(m, init);
      assert init + [vs[|vs| - 1]] == vs;
    }
  }

  /** `currentLifecycleState` of a consistent model is the newest value shown on the
      lifecycle stream. */
  lemma CurrentIsLastEmitted(m: ModelState)
    requires Consistent(m)
    ensures m.lifecycle == LastOf(m.emitted)
  {
    DistinctKeepsLast(m.accepted);
  }

  /** Hooks run once per distinct value: no hook runs twice in a row. */
  lemma HooksNeverRepeat(m: ModelState)
    requires Consistent(m)
    ensures NoAdjacentDuplicates(m.hooks)
  {
    DistinctHasNoAdjacentDuplicates(m.accepted);
    UpToDestroyedIsPrefix(m.emitted);
  }

  lemma {:induction false} UpToDestroyedIsPrefix(s: seq<Lifecycle>)
    ensures UpToDestroyed(s) <= s
  {
    if s != [] && s[0] != Destroyed {
      UpToDestroyedIsPrefix(s[1..]);
      assert s == [s[0]] + s[1..];
    }
  }

  /** Once the DESTROYED hook has run, accepting anything further runs no hook and leaves
      the flags and registries as they were. */
  lemma StepAfterDestroyed(m: ModelState, v: Lifecycle)
    requires Consistent(m) && Destroyed in m.hooks
    ensures Step(m, v).hooks == m.hooks
    ensures Step(m, v).paused == m.paused && Step(m, v).unbind == m.unbind
    ensures Step(m, v).compositePause == m.compositePause
    ensures Step(m, v).compositeUnbind == m.compositeUnbind
    ensures Step(m, v).compositeDestroy == m.compositeDestroy
  {
  }

  /** On a legal path DESTROYED can only come last: nothing legally follows it. */
  lemma DestroyedOnlyLast(p: seq<Lifecycle>)
    requires LegalPath(p) && p != []
    ensures Destroyed !in p[..|p| - 1]
  {
    forall i | 0 <= i < |p| - 1 ensures p[i] != Destroyed {
      assert IsNext(p[i], p[i + 1]);
    }
  }

  /** Along a legal path from a model whose handler still runs, every accepted value runs
      exactly its own hook, in order. */
  lemma {:induction false} LegalStepsRunEveryHook(m: ModelState, vs: seq<Lifecycle>)
    requires Destroyed !in m.hooks
    requires LegalPath(OptionToSeq(m.lifecycle) + vs)
    ensures Steps(m, vs).hooks == m.hooks + vs
    ensures Steps(m, vs).lifecycle == (if vs == [] then m.lifecycle else Some(vs[|vs| - 1]))
  {
    if vs != [] {
      var init, v := vs[..|vs| - 1], vs[|vs| - 1];
      var path := OptionToSeq(m.lifecycle) + vs;
      assert path[..|path| - 1] == OptionToSeq(m.lifecycle) + init;
      assert LegalPath(OptionToSeq(m.lifecycle) + init);
      LegalStepsRunEveryHook(m, init);
      DestroyedOnlyLast(path);
      var before := Steps(m, init);
      assert Destroyed !in before.hooks by {
        assert before.hooks == m.hooks + init;
        assert forall x :: x in init ==> x in path[..|path| - 1];
      }
      if |path| > 1 {
        assert IsNext(path[|path| - 2], path[|path| - 1]);
        assert before.lifecycle == Some(path[|path| - 2]);
      } else {
        assert before.lifecycle == None;
      }
      assert RunsHook(before, v);
      assert Steps(m, vs) == Step(before, v);
    }
  }

  /** With the host following the legal order, `paused` is false exactly while the model
      is resumed. */
  lemma {:induction false} PausedOnLegalPath(h: seq<Lifecycle>)
    requires LegalPath(h)
    ensures PausedAfter(h) == (h == [] || h[|h| - 1] != Resumed)
  {
    if h != [] && h[|h| - 1] != Resumed && h[|h| - 1] != Paused {
      var init := h[..|h| - 1];
      PausedOnLegalPath(init);
      if init != [] {
        assert IsNext(h[|h| - 2], h[|h| - 1]);
      }
    }
  }

  /** With the host following the legal order from CREATED, `unbind` is false exactly
      while the model is bound: BINDED, RESUMED or PAUSED. */
  lemma {:induction false} UnbindOnLegalPath(h: seq<Lifecycle>)
    requires LegalPath(h) && (h == [] || h[0] == Created)
    ensures UnbindAfter(h) == (h == [] || h[|h| - 1] == Created || h[|h| - 1] == Unbinded || h[|h| - 1] == Destroyed)
  {
    if h != [] && h[|h| - 1] != Binded && h[|h| - 1] != Unbinded {
      var init := h[..|h| - 1];
      UnbindOnLegalPath(init);
      if init != [] {
        assert init[|init| - 1] == h[|h| - 2];
        assert IsNext(h[|h| - 2], h[|h| - 1]);
      }
    }
  }

  /** A child attached with no lifecycle value and a parent that is not destroyed has run
      exactly the hooks of the prefix it received. */
  lemma AttachRunsPrefixHooks(m: ModelState, parentState: Option<Lifecycle>)
    requires m.lifecycle.None? && m.accepted == [] && m.hooks == []
    requires parentState != Some(Destroyed)
    ensures var r := Steps(m, AttachPrefix(parentState).value);
            && r.accepted == AttachPrefix(parentState).value
            && r.hooks == AttachPrefix(parentState).value
            && r.compositeDestroy == m.compositeDestroy
  {
    AttachPrefixIsLegal(parentState);
    StartRunsEveryHook(m, AttachPrefix(parentState).value);
  }

  /** A model that has accepted nothing, driven along a legal path short of DESTROYED,
      runs exactly the hooks of that path and keeps its destroy registry. */
  lemma StartRunsEveryHook(m: ModelState, vs: seq<Lifecycle>)
    requires m.lifecycle.None? && m.accepted == [] && m.hooks == []
    requires LegalPath(vs) && Destroyed !in vs
    ensures Steps(m, vs).accepted == vs && Steps(m, vs).hooks == vs
    ensures Steps(m, vs).compositeDestroy == m.compositeDestroy
  {
    assert OptionToSeq(m.lifecycle) + vs == vs;
    LegalStepsRunEveryHook(m, vs);
    StepsAccepted(m, vs);
    StepsKeepDestroyRegistry(m, vs);
  }

  /** A model with no lifecycle value has accepted nothing and run no hook. */
  lemma UnstartedIsEmpty(m: ModelState)
    requires Consistent(m) && m.lifecycle.None?
    ensures m.accepted == [] && m.emitted == [] && m.hooks == []
  {
  }

  lemma AttachPrefixIsLegal(parentState: Option<Lifecycle>)
    requires parentState != Some(Destroyed)
    ensures LegalPath(AttachPrefix(parentState).value)
    ensures Destroyed !in AttachPrefix(parentState).value
  {
    var prefix := AttachPrefix(parentState).value;
    assert prefix <= [Created, Binded, Resumed];
  }

  lemma {:induction false} StepsKeepDestroyRegistry(m: ModelState, vs: seq<Lifecycle>)
    requires Destroyed !in vs
    ensures Steps(m, vs).compositeDestroy == m.compositeDestroy
  {
    if vs != [] {
      StepsKeepDestroyRegistry(m, vs[..|vs| - 1]);
    }
  }

  /** Values other than PAUSED leave the pause registry as it was. */
  lemma {:induction false} StepsKeepPauseRegistry(m: ModelState, vs: seq<Lifecycle>)
    requires Paused !in vs
    ensures Steps(m, vs).compositePause == m.compositePause
  {
    if vs != [] {
      StepsKeepPauseRegistry(m, vs[..|vs| - 1]);
    }
  }

  /** Values other than UNBINDED leave the unbind registry as it was. */
  lemma {:induction false} StepsKeepUnbindRegistry(m: ModelState, vs: seq<Lifecycle>)
    requires Unbinded !in vs
    ensures Steps(m, vs).compositeUnbind == m.compositeUnbind
  {
    if vs != [] {
      StepsKeepUnbindRegistry(m, vs[..|vs| - 1]);
    }
  }

  /** `detachFromParent` on a model whose handler still runs drives it through the
      remaining hooks down to DESTROYED, which empties the destroy registry and so cuts the
      link to the parent. */
  lemma DetachRunsToDestroyed(m: ModelState)
    requires Consistent(m) && m.lifecycle.Some? && Destroyed !in m.hooks
    ensures var suffix := DetachSuffix(m.lifecycle);
            var r := Steps(m, suffix);
            && r.hooks == m.hooks + suffix
            && r.lifecycle == Some(Destroyed)
            && r.compositeDestroy == {}
  {
    CurrentIsLastEmitted(m);
    UpToDestroyedWhole(m.emitted);
    var suffix := DetachSuffix(m.lifecycle);
    var path := OptionToSeq(m.lifecycle) + suffix;
    var init := suffix[..|suffix| - 1];
    LegalStepsRunEveryHook(m, suffix);
    assert path[..|path| - 1] == OptionToSeq(m.lifecycle) + init;
    LegalStepsRunEveryHook(m, init);
    var before := Steps(m, init);
    assert Destroyed !in before.hooks;
    assert before.lifecycle != Some(Destroyed);
    assert Steps(m, suffix) == Step(before, Destroyed);
  }

  // ---------------------------------------------------------------------------
  // The presentation model
  // ---------------------------------------------------------------------------

  class PresentationModel {
    /** Whether the model also carries a navigation-message channel. */
    const navigational: bool

    /** The lifecycle relay's value (`currentLifecycleState`). */
    var lifecycle: Option<Lifecycle>
    /** Every value given to the lifecycle consumer, oldest first. */
    var accepted: seq<Lifecycle>
    /** What `lifecycleObservable` shows an observer subscribed since construction. */
    var emitted: seq<Lifecycle>
    /** The hooks run so far, named by the lifecycle value they belong to. */
    var hooks: seq<Lifecycle>
    /** The `unbind` and `paused` relays' values. */
    var unbind: bool
    var paused: bool
    /** The three registries, cleared on PAUSED, UNBINDED and DESTROYED. */
    var compositePause: set<Disposable>
    var compositeUnbind: set<Disposable>
    var compositeDestroy: set<Disposable>

    function Current(): ModelState
      reads this
    {
      ModelState(lifecycle, accepted, emitted, hooks, unbind, paused,
                 compositePause, compositeUnbind, compositeDestroy)
    }

    ghost predicate Valid()
      reads this
    {
      Consistent(Current())
    }

    constructor (navigational: bool)
      ensures Valid() && this.navigational == navigational
      ensures Current() == Initial
    {
      this.navigational := navigational;
      lifecycle := None;
      accepted, emitted, hooks := [], [], [];
      unbind, paused := true, true;
      compositePause, compositeUnbind := {}, {};
      compositeDestroy := {LifecycleHandler};
    }

    /** `currentLifecycleState`: null before any value, afterwards the newest accepted
        value, which is also the newest value the lifecycle stream has shown. */
    function CurrentLifecycleState(): (r: Option<Lifecycle>)
      reads this
      requires Valid()
      ensures r == LastOf(accepted)
      ensures r == LastOf(emitted)
    {
      CurrentIsLastEmitted(Current());
      lifecycle
    }

    /** `lifecycleConsumer.accept(v)`, with the transition handler it triggers. */
    method Accept(v: Lifecycle)
      requires Valid()
      modifies this
      ensures Valid()
      ensures Current() == Step(old(Current()), v)
    {
      ghost var before := Current();
      StepConsistent(before, v);
      var runsHook := lifecycle != Some(v) && Destroyed !in hooks;
      if lifecycle != Some(v) {
        emitted := emitted + [v];
      }
      accepted := accepted + [v];
      lifecycle := Some(v);
      if runsHook {
        Handle(v);
      }
      assert Current() == Step(before, v);
    }

    /** The transition handler reacting to one value it receives. */
    method Handle(v: Lifecycle)
      modifies this`hooks, this`unbind, this`paused, this`compositePause,
               this`compositeUnbind, this`compositeDestroy
      ensures Current() == Handled(old(Current()), v)
    {
      match v {
        case Created =>
        case Binded =>
          unbind := false;
        case Resumed =>
          paused := false;
        case Paused =>
          paused := true;
          compositePause := {};
        case Unbinded =>
          unbind := true;
          compositeUnbind := {};
        case Destroyed =>
          compositeDestroy := {};
      }
      hooks := hooks + [v];
    }

    /** `untilPause`: the subscription is disposed on the next PAUSED. */
    method UntilPause(d: Disposable)
      requires Valid()
      modifies this`compositePause
      ensures Valid()
      ensures Current() == old(Current()).(compositePause := old(compositePause) + {d})
    {
      compositePause := compositePause + {d};
    }

    /** `untilUnbind`: the subscription is disposed on the next UNBINDED. */
    method UntilUnbind(d: Disposable)
      requires Valid()
      modifies this`compositeUnbind
      ensures Valid()
      ensures Current() == old(Current()).(compositeUnbind := old(compositeUnbind) + {d})
    {
      compositeUnbind := compositeUnbind + {d};
    }

    /** `untilDestroy`: the subscription is disposed on DESTROYED. */
    method UntilDestroy(d: Disposable)
      requires Valid()
      modifies this`compositeDestroy
      ensures Valid()
      ensures Current() == old(Current()).(compositeDestroy := old(compositeDestroy) + {d})
    {
      compositeDestroy := compositeDestroy + {d};
    }

    /** `attachToParent`: the child receives `AttachPrefix` of the parent's state at once,
        and its link to the parent (and, when both carry one, the navigation forwarding) is
        kept until the child is destroyed. */
    method AttachToParent(parent: PresentationModel) returns (r: Outcome<Fault>)
      requires Valid() && parent.Valid()
      modifies this
      ensures Valid()
      ensures parent == this ==> r == Fail(IllegalArgument)
      ensures parent != this && old(lifecycle).Some? ==> r == Fail(IllegalState)
      ensures parent != this && old(lifecycle).None? && parent.lifecycle == Some(Destroyed) ==>
                r == Fail(IllegalState)
      ensures r.Fail? ==> unchanged(this)
      ensures r.Pass? <==> parent != this && old(lifecycle).None? && parent.lifecycle != Some(Destroyed)
      ensures r.Pass? ==>
                var m := Steps(old(Current()), AttachPrefix(parent.lifecycle).value);
                Current() == m.(compositeDestroy := m.compositeDestroy + {ParentLink} +
                                  (if navigational && parent.navigational then {NavigationLink} else {}))
      ensures r.Pass? ==>
                && accepted == AttachPrefix(parent.lifecycle).value
                && hooks == accepted
                && compositeDestroy == old(compositeDestroy) + {ParentLink} +
                     (if navigational && parent.navigational then {NavigationLink} else {})
    {
      if parent == this {
        return Fail(IllegalArgument);
      }
      if lifecycle.Some? {
        return Fail(IllegalState);
      }
      if parent.lifecycle == Some(Destroyed) {
        return Fail(IllegalState);
      }
      ghost var before := Current();
      UnstartedIsEmpty(before);
      ReceivePrefix(parent.lifecycle);
      AttachRunsPrefixHooks(before, parent.lifecycle);
      UntilDestroy(ParentLink);
      if navigational && parent.navigational {
        UntilDestroy(NavigationLink);
      }
      r := Pass;
    }

    /** The values a child's lifecycle consumer receives synchronously when it subscribes
        to a parent in the state `parentState`. */
    method ReceivePrefix(parentState: Option<Lifecycle>)
      requires Valid() && parentState != Some(Destroyed)
      modifies this
      ensures Valid()
      ensures Current() == Steps(old(Current()), AttachPrefix(parentState).value)
    {
      ghost var before := Current();
      match parentState {
        case Some(Resumed) =>
          assert AttachPrefix(parentState).value == [Created, Binded, Resumed];
          StepsThree(before, Created, Binded, Resumed);
          Accept(Created); Accept(Binded); Accept(Resumed);
        case Some(Paused) =>
          assert AttachPrefix(parentState).value == [Created, Binded];
          StepsTwo(before, Created, Binded);
          Accept(Created); Accept(Binded);
        case Some(Binded) =>
          assert AttachPrefix(parentState).value == [Created, Binded];
          StepsTwo(before, Created, Binded);
          Accept(Created); Accept(Binded);
        case Some(Unbinded) =>
          assert AttachPrefix(parentState).value == [Created];
          StepsOne(before, Created);
          Accept(Created);
        case Some(Created) =>
          assert AttachPrefix(parentState).value == [Created];
          StepsOne(before, Created);
          Accept(Created);
        case None =>
          assert AttachPrefix(parentState).value == [];
      }
    }

    /** One value of the parent's lifecycle stream arriving over the link set up by
        `AttachToParent`; once the link has been disposed nothing arrives. */
    method FollowParent(v: Lifecycle)
      requires Valid()
      modifies this
      ensures Valid()
      ensures ParentLink !in old(compositeDestroy) ==> unchanged(this)
      ensures ParentLink in old(compositeDestroy) ==> Current() == Step(old(Current()), v)
    {
      if ParentLink in compositeDestroy {
        Accept(v);
      }
    }

    /** `detachFromParent`: issues the remaining transitions down to DESTROYED. */
    method DetachFromParent()
      requires Valid()
      modifies this
      ensures Valid()
      ensures Current() == Steps(old(Current()), DetachSuffix(old(lifecycle)))
      ensures old(lifecycle).None? || old(lifecycle) == Some(Destroyed) ==> unchanged(this)
      ensures old(lifecycle).Some? && Destroyed !in old(hooks) ==>
                && hooks == old(hooks) + DetachSuffix(old(lifecycle))
                && lifecycle == Some(Destroyed)
                && compositeDestroy == {}
    {
      ghost var before := Current();
      match lifecycle {
        case Some(Created) =>
          StepsOne(before, Destroyed);
          Accept(Destroyed);
        case Some(Binded) =>
          StepsTwo(before, Unbinded, Destroyed);
          Accept(Unbinded); Accept(Destroyed);
        case Some(Resumed) =>
          StepsThree(before, Paused, Unbinded, Destroyed);
          Accept(Paused); Accept(Unbinded); Accept(Destroyed);
        case Some(Paused) =>
          StepsTwo(before, Unbinded, Destroyed);
          Accept(Unbinded); Accept(Destroyed);
        case Some(Unbinded) =>
          StepsOne(before, Destroyed);
          Accept(Destroyed);
        case _ =>
      }
      if before.lifecycle.Some? && Destroyed !in before.hooks {
        DetachRunsToDestroyed(before);
      }
    }
  }
}
