/** `State<T>`: a reactive property of a presentation model. It holds an optional current
    value, shows its values through an optional diff filter, can be fed from a source
    stream subscribed on the model's first CREATED, and can be bound to a view consumer
    through the single-value idle buffer. Values are references: Kotlin's `===` is Dafny's
    `==`, and Kotlin's `==` is the `equals` relation a caller supplies. */
module States {
  import opened Reactive
  import opened Lifecycles
  import opened IdleBuffer

  /** `DiffStrategy`: `areTheSame` judges two values alike; `computeAsync` only chooses the
      thread the comparison runs on. The filter calls it as `areTheSame(previous, next)`. */
  datatype DiffStrategy<!T> = DiffStrategy(areTheSame: (T, T) -> bool, computeAsync: bool)

  /** `DiffByEquals`: alike when `equals` says so, compared on the calling thread. */
  function DiffByEquals<T>(equals: (T, T) -> bool): DiffStrategy<T>
  {
    DiffStrategy((a: T, b: T) => equals(a, b), false)
  }

  /** `DiffByReference`: alike only when they are the same object. */
  function DiffByReference<T(==)>(): DiffStrategy<T>
  {
    DiffStrategy((a: T, b: T) => a == b, false)
  }

  /** Both stock strategies compare on the calling thread; `DiffByEquals` judges by
      `equals`, `DiffByReference` by identity, and identity implies a reflexive `equals`. */
  lemma StockStrategies<T>(equals: (T, T) -> bool, x: T, y: T)
    ensures !DiffByEquals(equals).computeAsync && !DiffByReference<T>().computeAsync
    ensures DiffByEquals(equals).areTheSame(x, y) <==> equals(x, y)
    ensures DiffByReference<T>().areTheSame(x, y) <==> x == y
    ensures equals(x, x) && DiffByReference<T>().areTheSame(x, y) ==> DiffByEquals(equals).areTheSame(x, y)
  {
  }

  /** What `observable` shows an observer given the values the relay passes it: every value
      without a strategy, otherwise the values the strategy does not judge alike to their
      predecessor. A strategy that computes asynchronously only hops threads first. */
  function ObservableOf<T>(received: seq<T>, diffStrategy: Option<DiffStrategy<T>>): seq<T>
  {
    match diffStrategy
    case None => received
    case Some(d) => DistinctUntilChanged(received, d.areTheSame)
  }

  /** Whether the diff filter lets `v` through, given the values the relay passed the same
      subscriber before it: always without a strategy, otherwise unless the strategy judges
      `v` alike to the value just before it. */
  function Passes<T>(seen: seq<T>, v: T, diffStrategy: Option<DiffStrategy<T>>): bool
  {
    diffStrategy.None? || seen == [] || !diffStrategy.value.areTheSame(seen[|seen| - 1], v)
  }

  /** One more value from the relay is shown exactly when it passes the filter. */
  lemma ObservableAppend<T>(seen: seq<T>, v: T, diffStrategy: Option<DiffStrategy<T>>)
    ensures ObservableOf(seen + [v], diffStrategy) ==
            ObservableOf(seen, diffStrategy) + (if Passes(seen, v, diffStrategy) then [v] else [])
  {
    if diffStrategy.Some? {
      DistinctUntilChangedAppend(seen, v, diffStrategy.value.areTheSame);
    }
  }

  /** With a strategy whose `areTheSame` is an equivalence, the observable never shows two
      alike values in a row, its newest value is alike to the relay's newest, and it starts
      with the relay's first value. */
  lemma ObservableSuppressesAlike<T>(received: seq<T>, d: DiffStrategy<T>)
    requires forall a :: d.areTheSame(a, a)
    requires forall a, b :: d.areTheSame(a, b) ==> d.areTheSame(b, a)
    requires forall a, b, c :: d.areTheSame(a, b) && d.areTheSame(b, c) ==> d.areTheSame(a, c)
    ensures var shown := ObservableOf(received, Some(d));
            && (forall i :: 0 < i < |shown| ==> !d.areTheSame(shown[i - 1], shown[i]))
            && (received != [] ==> shown != [] && shown[0] == received[0] &&
                                   d.areTheSame(shown[|shown| - 1], received[|received| - 1]))
  {
    DistinctUntilChangedSeparatesNeighbours(received, d.areTheSame);
  }

  /** Without a strategy every value passes. */
  lemma ObservableWithoutStrategy<T>(received: seq<T>)
    ensures ObservableOf(received, None) == received
  {
  }

  /** The filter keeps a value exactly when the comparer does not match it with the value
      before it; with `DiffByReference` that is exactly the `distinct` filter. */
  lemma ObservableByReference<T>(received: seq<T>)
    ensures ObservableOf(received, Some(DiffByReference())) == Distinct(received)
  {
    var d := DiffByReference<T>();
    assert d.areTheSame == (a: T, b: T) => a == b;
  }

  /** A comparer that judges more pairs alike lets fewer values through. Since an `equals`
      that is reflexive holds of every pair `===` holds of, `DiffByEquals` shows at most
      as many values as `DiffByReference`. */
  lemma {:induction false} CoarserComparerKeepsFewer<T>(s: seq<T>, finer: (T, T) -> bool, coarser: (T, T) -> bool)
    requires forall a, b :: finer(a, b) ==> coarser(a, b)
    ensures |DistinctUntilChanged(s, coarser)| <= |DistinctUntilChanged(s, finer)|
  {
    if |s| > 1 {
      var init := s[..|s| - 1];
      CoarserComparerKeepsFewer(init, finer, coarser);
      DistinctUntilChangedAppend(init, s[|s| - 1], finer);
      DistinctUntilChangedAppend(init, s[|s| - 1], coarser);
      assert init + [s[|s| - 1]] == s;
    }
  }

  lemma EqualsShowsNoMoreThanReference<T>(received: seq<T>, equals: (T, T) -> bool)
    requires forall a :: equals(a, a)
    ensures |ObservableOf(received, Some(DiffByEquals(equals)))| <=
            |ObservableOf(received, Some(DiffByReference()))|
  {
    CoarserComparerKeepsFewer(received, DiffByReference<T>().areTheSame, DiffByEquals(equals).areTheSame);
  }

  // ---------------------------------------------------------------------------
  // The State object
  // ---------------------------------------------------------------------------

  class State<T> {
    /** The presentation model the state belongs to. */
    const pm: PresentationModel
    const diffStrategy: Option<DiffStrategy<T>>

    /** The behavior relay's value. */
    var relayValue: Option<T>
    /** Every value the relay has held, the initial one first. */
    var received: seq<T>
    /** A state source was given and waits for the model's first CREATED. */
    var sourcePending: bool
    /** The state source has been subscribed. */
    var sourceSubscribed: bool
    /** The source subscription has ended with an error and disposed itself. */
    var sourceEnded: bool

    ghost predicate Valid()
      reads this
    {
      && relayValue == LastOf(received)
      && !(sourcePending && sourceSubscribed)
    }

    /** The constructor: a null initial value is the same as none. */
    constructor (pm: PresentationModel, initialValue: Option<T>, diffStrategy: Option<DiffStrategy<T>>)
      ensures Valid()
      ensures this.pm == pm && this.diffStrategy == diffStrategy
      ensures received == OptionToSeq(initialValue)
      ensures !sourcePending && !sourceSubscribed && !sourceEnded
    {
      this.pm := pm;
      this.diffStrategy := diffStrategy;
      relayValue := initialValue;
      received := OptionToSeq(initialValue);
      sourcePending, sourceSubscribed, sourceEnded := false, false, false;
    }

    /** `value`: the current value, or UninitializedPropertyAccessException when the relay
        has never held one. */
    function Value(): (r: Result<T, Fault>)
      reads this
      requires Valid()
      ensures r.Success? <==> received != []
      ensures r.Success? ==> r.value == received[|received| - 1]
      ensures r.Failure? ==> r.error == UninitializedPropertyAccess
    {
      match relayValue
      case Some(v) => Success(v)
      case None => Failure(UninitializedPropertyAccess)
    }

    /** `valueOrNull`: the newest value the relay has held, or null. */
    function ValueOrNull(): (r: Option<T>)
      reads this
      requires Valid()
      ensures r == LastOf(received)
      ensures r.None? <==> Value().Failure?
    {
      relayValue
    }

    /** `hasValue()`. */
    function HasValue(): (r: bool)
      reads this
      requires Valid()
      ensures r <==> received != []
      ensures r <==> Value().Success?
    {
      relayValue.Some?
    }

    /** `observable`, as seen by an observer subscribed since construction. */
    function Observable(): (r: seq<T>)
      reads this
      ensures |r| <= |received|
      ensures diffStrategy.None? ==> r == received
    {
      ObservableOf(received, diffStrategy)
    }

    /** The relay taking a value, from the model's `accept` or `consumer`. */
    method Accept(v: T)
      requires Valid()
      modifies this
      ensures Valid()
      ensures received == old(received) + [v]
      ensures Value() == Success(v)
      ensures sourcePending == old(sourcePending) && sourceSubscribed == old(sourceSubscribed)
      ensures sourceEnded == old(sourceEnded)
    {
      relayValue := Some(v);
      received := received + [v];
    }

    /** A value from the model's lifecycle stream reaching the `filter { CREATED }.take(1)`
        subscription that `state()` makes when given a state source: the first CREATED
        subscribes the source and registers it until DESTROYED. */
    method OnLifecycle(v: Lifecycle)
      requires Valid() && pm.Valid()
      modifies this, pm`compositeDestroy
      ensures Valid() && pm.Valid()
      ensures received == old(received) && sourceEnded == old(sourceEnded)
      ensures old(sourcePending) && v == Created ==>
                !sourcePending && sourceSubscribed &&
                pm.compositeDestroy == old(pm.compositeDestroy) + {StateSource(this)}
      ensures !(old(sourcePending) && v == Created) ==>
                sourcePending == old(sourcePending) && sourceSubscribed == old(sourceSubscribed) &&
                pm.compositeDestroy == old(pm.compositeDestroy)
    {
      if sourcePending && v == Created {
        sourcePending := false;
        sourceSubscribed := true;
        pm.UntilDestroy(StateSource(this));
      }
    }

    /** Whether the source subscription is still alive: made, not ended by an error, and not
        yet cleared from the model's destroy registry. */
    predicate SourceLive()
      reads this, pm
    {
      sourceSubscribed && !sourceEnded && StateSource(this) in pm.compositeDestroy
    }

    /** A value from the state source: the relay takes it while the subscription lives. */
    method OnSourceNext(v: T)
      requires Valid()
      modifies this
      ensures Valid()
      ensures SourceLive() ==> received == old(received) + [v]
      ensures !SourceLive() ==> received == old(received)
      ensures sourcePending == old(sourcePending) && sourceSubscribed == old(sourceSubscribed)
      ensures sourceEnded == old(sourceEnded)
    {
      if SourceLive() {
        Accept(v);
      }
    }

    /** An error from the state source is not absorbed: while the subscription lives, the
        subscription disposes itself and the error is rethrown as IllegalStateException.
        Afterwards no source value reaches the relay. */
    method OnSourceError() returns (r: Outcome<Fault>)
      requires Valid()
      modifies this`sourceEnded
      ensures Valid()
      ensures r.Fail? <==> old(SourceLive())
      ensures r.Fail? ==> r.error == IllegalState
      ensures !SourceLive()
      ensures sourceEnded == (old(sourceEnded) || old(SourceLive()))
    {
      if SourceLive() {
        sourceEnded := true;
        r := Fail(IllegalState);
      } else {
        r := Pass;
      }
    }

    /** `bindTo(consumer)`: subscribes an idle buffer keyed on the model's `paused` flag to
        `observable`, registered until UNBINDED. The buffer first sees `paused`, then the
        relay's current value, which reaches the consumer only if the model is not paused. */
    method BindTo(consumer: nat) returns (r: Bound<T>)
      requires Valid() && pm.Valid()
      modifies pm`compositeUnbind
      ensures pm.Valid()
      ensures pm.compositeUnbind == old(pm.compositeUnbind) + {Binding(r)}
      ensures fresh(r) && fresh(r.buffer) && r.Valid() && r.Live() && Binding(r) !in old(pm.compositeUnbind)
      ensures r.state == this && r.consumer == consumer && r.seen == OptionToSeq(relayValue)
      ensures r.buffer.Current() ==
              (var t := OnSubscribeStep(Fresh(), Some(pm.paused));
               if relayValue.Some? then OnNextStep(t, relayValue.value) else t)
      ensures r.buffer.subscribed && !r.buffer.disposed && !r.buffer.done && r.buffer.undeliverable == []
      ensures r.buffer.isIdle == pm.paused
      ensures r.buffer.downstream == (if !pm.paused && relayValue.Some? then [Next(relayValue.value)] else [])
      ensures r.buffer.bufferedValue == (if pm.paused then relayValue else None)
    {
      var b := new ObserverWithBuffer();
      b.OnSubscribe(Some(pm.paused));
      if relayValue.Some? {
        b.OnNext(relayValue.value);
      }
      r := new Bound(this, consumer, b, OptionToSeq(relayValue));
      pm.UntilUnbind(Binding(r));
    }
  }

  /** A view consumer bound by `bindTo`: its subscription to the state's `observable`, whose
      diff filter starts afresh with this subscriber, feeding an idle buffer. The relay's
      later values and the model's `paused` values reach it only while `Binding(this)`
      is in the model's unbind registry; UNBINDED clears that registry and so ends both. */
  class Bound<T> {
    const state: State<T>
    const consumer: nat
    const buffer: ObserverWithBuffer<T>
    /** Every value the relay has passed this subscription, the replayed current one first. */
    var seen: seq<T>

    ghost predicate Valid()
      reads buffer
    {
      buffer.Valid()
    }

    constructor (state: State<T>, consumer: nat, buffer: ObserverWithBuffer<T>, seen: seq<T>)
      requires buffer.Valid()
      ensures Valid()
      ensures this.state == state && this.consumer == consumer && this.buffer == buffer && this.seen == seen
    {
      this.state := state;
      this.consumer := consumer;
      this.buffer := buffer;
      this.seen := seen;
    }

    /** Whether the subscription is still registered, and so not yet disposed. */
    predicate Live()
      reads state.pm
    {
      Binding(this) in state.pm.compositeUnbind
    }

    /** What the filter has let through to the buffer so far. */
    function Shown(): (r: seq<T>)
      reads this
      ensures |r| <= |seen|
      ensures state.diffStrategy.None? ==> r == seen
    {
      ObservableOf(seen, state.diffStrategy)
    }

    /** Whether the relay still reaches this subscription: it is registered, and the buffer
        has not had its composite, which holds the relay subscription, disposed. */
    predicate RelayLive()
      reads state.pm, buffer
    {
      Live() && UpstreamLive(buffer.Current())
    }

    /** The relay emitting a newly accepted value to this subscription: it reaches the buffer
        exactly when the subscription is live and the value passes the diff filter. */
    method OnRelay(v: T)
      requires Valid()
      modifies this, buffer
      ensures Valid()
      ensures !old(RelayLive()) ==> unchanged(this) && unchanged(buffer)
      ensures old(RelayLive()) ==> seen == old(seen) + [v]
      ensures old(RelayLive()) ==>
                Shown() == old(Shown()) + (if Passes(old(seen), v, state.diffStrategy) then [v] else [])
      ensures old(RelayLive()) ==>
                buffer.Current() == (if Passes(old(seen), v, state.diffStrategy)
                                     then OnNextStep(old(buffer.Current()), v)
                                     else old(buffer.Current()))
    {
      if Live() && (!buffer.disposed || buffer.done) {
        ObservableAppend(seen, v, state.diffStrategy);
        if Passes(seen, v, state.diffStrategy) {
          buffer.OnNext(v);
        }
        seen := seen + [v];
      }
    }

    /** The model's `paused` relay emitting to the buffer's idle subscription, which lives
        while the binding is registered and the buffer has not disposed it. */
    method OnPaused(idle: bool)
      requires Valid()
      modifies buffer
      ensures Valid()
      ensures Live() && IdleLive(old(buffer.Current())) ==>
                buffer.Current() == OnIdleStep(old(buffer.Current()), idle)
      ensures !(Live() && IdleLive(old(buffer.Current()))) ==> unchanged(buffer)
    {
      if Live() && buffer.subscribed && !buffer.disposed {
        buffer.OnIdle(idle);
      }
    }
  }

  /** A value bound while the model is paused is held back, and reaches the consumer once,
      when the model resumes. */
  lemma BoundWhilePausedFlushesOnResume<T>(v: T)
    ensures var bound := OnNextStep(OnSubscribeStep(Fresh<T>(), Some(true)), v);
            && bound.downstream == [] && bound.bufferedValue == Some(v) && IdleLive(bound)
            && OnIdleStep(bound, false).downstream == [Next(v)]
            && OnIdleStep(OnIdleStep(bound, false), false).downstream == [Next(v)]
  {
  }

  /** The `state()` factory: a source, when given, is subscribed on the model's first
      CREATED, which comes at once if the model's lifecycle stream already holds CREATED.
      As in the source, it defaults to no initial value, no source and `DiffByEquals` over
      `equals`, the relation standing for the value type's `==`. */
  method NewState<T>(pm: PresentationModel, equals: (T, T) -> bool,
                     initialValue: Option<T> := None,
                     diffStrategy: Option<DiffStrategy<T>> := Some(DiffByEquals(equals)),
                     hasSource: bool := false) returns (s: State<T>)
    requires pm.Valid()
    modifies pm`compositeDestroy
    ensures fresh(s) && s.Valid() && pm.Valid()
    ensures s.pm == pm && s.diffStrategy == diffStrategy && s.received == OptionToSeq(initialValue)
    ensures s.sourceSubscribed <==> hasSource && pm.lifecycle == Some(Created)
    ensures s.sourcePending <==> hasSource && pm.lifecycle != Some(Created)
    ensures !s.sourceEnded
    ensures pm.compositeDestroy == old(pm.compositeDestroy) + (if s.sourceSubscribed then {StateSource(s)} else {})
  {
    s := new State(pm, initialValue, diffStrategy);
    if hasSource {
      s.sourcePending := true;
      if pm.lifecycle.Some? {
        s.OnLifecycle(pm.lifecycle.value);
      }
    }
  }
}
