/** `BufferSingleValueWhileIdleOperator.ObserverWithBuffer`: an observer that forwards
    values downstream while its idle signal is off, keeps only the newest value while it is
    on, and flushes that one value when the signal turns off again. */
module IdleBuffer {
  import opened Reactive

  /** An exception travelling through the stream, known by its identity only. */
  type Throwable = nat

  /** What the observer passes downstream. */
  datatype Event<T> = Next(value: T) | Error(cause: Throwable) | Complete

  /** Every field of the observer at one moment, together with what it has sent downstream
      and the errors it handed to the global error handler instead. */
  datatype BufferState<T> = BufferState(
    subscribed: bool,        // onSubscribe has run, so the idle subscription exists
    disposed: bool,          // the composite holding upstream and the idle subscription is disposed
    done: bool,
    isIdle: bool,
    bufferedValue: Option<T>,
    downstream: seq<Event<T>>,
    undeliverable: seq<Throwable>)

  /** A fresh observer: not idle, nothing buffered, nothing sent. */
  function Fresh<T>(): BufferState<T>
  {
    BufferState(false, false, false, false, None, [], [])
  }

  /** `onNext(v)`: ignored once done; buffered (replacing any older value) while idle;
      otherwise passed straight downstream. */
  function OnNextStep<T>(s: BufferState<T>, v: T): BufferState<T>
  {
    if s.done then s
    else if s.isIdle then s.(bufferedValue := Some(v))
    else s.(downstream := s.downstream + [Next(v)])
  }

  /** The idle subscription's callback: `true` only raises the flag; `false` lowers it,
      passes a buffered value on through `onNext` and empties the slot. */
  function OnIdleStep<T>(s: BufferState<T>, idle: bool): BufferState<T>
  {
    if idle then s.(isIdle := true)
    else
      var lowered := s.(isIdle := false);
      var flushed := if s.bufferedValue.Some? then OnNextStep(lowered, s.bufferedValue.value) else lowered;
      flushed.(bufferedValue := None)
  }

  /** `onSubscribe`: subscribing to the idle source delivers its current value, if it has
      one, before the composite takes the subscriptions; a composite already disposed
      disposes them at once. */
  function OnSubscribeStep<T>(s: BufferState<T>, idleNow: Option<bool>): BufferState<T>
  {
    var t := if idleNow.Some? then OnIdleStep(s, idleNow.value) else s;
    t.(subscribed := true)
  }

  /** `onError(e)`: the first terminal event marks the observer done, disposes the
      composite and goes downstream; once done, the error goes to the global handler. */
  function OnErrorStep<T>(s: BufferState<T>, e: Throwable): BufferState<T>
  {
    if s.done then s.(undeliverable := s.undeliverable + [e])
    else s.(done := true, disposed := true, downstream := s.downstream + [Error(e)])
  }

  /** `onComplete()`: like `onError`, but a second one is simply ignored. */
  function OnCompleteStep<T>(s: BufferState<T>): BufferState<T>
  {
    if s.done then s
    else s.(done := true, disposed := true, downstream := s.downstream + [Complete])
  }

  /** The downstream observer disposing the composite it was handed. */
  function DisposeStep<T>(s: BufferState<T>): BufferState<T>
  {
    s.(disposed := true)
  }

  /** Whether the idle subscription can still deliver. */
  predicate IdleLive<T>(s: BufferState<T>)
  {
    s.subscribed && !s.disposed
  }

  /** Whether upstream can still deliver. The composite handed downstream also holds the
      upstream subscription, so once downstream disposes it upstream falls silent. After
      the observer's own terminal event, signals an upstream still sends reach it, and
      the `done` guards of `onNext`, `onError` and `onComplete` deal with them. */
  predicate UpstreamLive<T>(s: BufferState<T>)
  {
    !s.disposed || s.done
  }

  /** One signal arriving at the observer: from upstream (while upstream is live), from
      the idle source (while its subscription is live), or a disposal from downstream. */
  datatype Signal<T> = Value(v: T) | Idle(idle: bool) | Failed(e: Throwable) | Completed | Disposed

  function Apply<T>(s: BufferState<T>, x: Signal<T>): BufferState<T>
  {
    match x
    case Value(v) => if UpstreamLive(s) then OnNextStep(s, v) else s
    case Idle(b) => if IdleLive(s) then OnIdleStep(s, b) else s
    case Failed(e) => if UpstreamLive(s) then OnErrorStep(s, e) else s
    case Completed => if UpstreamLive(s) then OnCompleteStep(s) else s
    case Disposed => DisposeStep(s)
  }

  function Run<T>(s: BufferState<T>, xs: seq<Signal<T>>): BufferState<T>
    decreases |xs|
  {
    if xs == [] then s else Run(Apply(s, xs[0]), xs[1..])
  }

  function Values<T>(vs: seq<T>): seq<Signal<T>>
  {
    seq(|vs|, i requires 0 <= i < |vs| => Value(vs[i]))
  }

  function Nexts<T>(vs: seq<T>): seq<Event<T>>
  {
    seq(|vs|, i requires 0 <= i < |vs| => Next(vs[i]))
  }

  /** What downstream has seen is a run of values followed by at most one terminal event,
      and the observer is done exactly when that terminal event has been sent. */
  predicate WellFormed<T>(s: BufferState<T>)
  {
    && (forall i :: 0 <= i < |s.downstream| - 1 ==> s.downstream[i].Next?)
    && (s.done <==> s.downstream != [] && !s.downstream[|s.downstream| - 1].Next?)
    && (s.done ==> s.disposed)
  }

  // ---------------------------------------------------------------------------
  // Properties
  // ---------------------------------------------------------------------------

  /** The observer starts well formed: not idle, nothing buffered, nothing sent. */
  lemma FreshIsWellFormed<T>()
    ensures WellFormed(Fresh<T>())
    ensures !Fresh<T>().isIdle && Fresh<T>().bufferedValue == None && Fresh<T>().downstream == []
  {
  }

  lemma OnNextKeepsWellFormed<T>(s: BufferState<T>, v: T)
    requires WellFormed(s)
    ensures WellFormed(OnNextStep(s, v))
  {
    var r := OnNextStep(s, v);
    if !s.done && !s.isIdle {
      assert r.downstream[..|s.downstream|] == s.downstream;
    }
  }

  lemma OnIdleKeepsWellFormed<T>(s: BufferState<T>, idle: bool)
    requires WellFormed(s)
    ensures WellFormed(OnIdleStep(s, idle))
  {
    if !idle && s.bufferedValue.Some? {
      OnNextKeepsWellFormed(s.(isIdle := false), s.bufferedValue.value);
    }
  }

  /** Every signal keeps the observer well formed: at most one terminal event ever reaches
      downstream, and nothing follows it. */
  lemma ApplyKeepsWellFormed<T>(s: BufferState<T>, x: Signal<T>)
    requires WellFormed(s)
    ensures WellFormed(Apply(s, x))
  {
    match x {
      case Value(v) => OnNextKeepsWellFormed(s, v);
      case Idle(b) => OnIdleKeepsWellFormed(s, b);
      case _ =>
    }
  }

  lemma {:induction false} RunKeepsWellFormed<T>(s: BufferState<T>, xs: seq<Signal<T>>)
    requires WellFormed(s)
    ensures WellFormed(Run(s, xs))
    decreases |xs|
  {
    if xs != [] {
      ApplyKeepsWellFormed(s, xs[0]);
      RunKeepsWellFormed(Apply(s, xs[0]), xs[1..]);
    }
  }

  /** Once done, nothing further reaches downstream: a value still in the buffer is
      dropped, and a later error only reaches the global handler. */
  lemma {:induction false} NothingAfterDone<T>(s: BufferState<T>, xs: seq<Signal<T>>)
    requires s.done && s.disposed
    ensures Run(s, xs).downstream == s.downstream
    ensures Run(s, xs).done
    decreases |xs|
  {
    if xs != [] {
      NothingAfterDone(Apply(s, xs[0]), xs[1..]);
    }
  }

  /** Once downstream has disposed the composite, nothing further reaches it: neither
      upstream nor the idle source delivers. */
  lemma {:induction false} NothingAfterDispose<T>(s: BufferState<T>, xs: seq<Signal<T>>)
    requires s.disposed
    ensures Run(s, xs).downstream == s.downstream
    ensures Run(s, xs).bufferedValue == s.bufferedValue || s.done
    decreases |xs|
  {
    if s.done {
      NothingAfterDone(s, xs);
    } else if xs != [] {
      assert Apply(s, xs[0]) == s;
      NothingAfterDispose(s, xs[1..]);
    }
  }

  /** While neither idle nor done nor disposed, values go downstream at once and in order. */
  lemma {:induction false} ForwardsWhileActive<T>(s: BufferState<T>, vs: seq<T>)
    requires !s.done && !s.isIdle && !s.disposed
    ensures Run(s, Values(vs)).downstream == s.downstream + Nexts(vs)
    ensures Run(s, Values(vs)).bufferedValue == s.bufferedValue
    decreases |vs|
  {
    if vs != [] {
      assert Values(vs)[1..] == Values(vs[1..]);
      ForwardsWhileActive(OnNextStep(s, vs[0]), vs[1..]);
      assert Nexts(vs) == [Next(vs[0])] + Nexts(vs[1..]);
    }
  }

  /** While idle (and not disposed), values send nothing downstream and only the newest
      one is kept. */
  lemma {:induction false} KeepsNewestWhileIdle<T>(s: BufferState<T>, vs: seq<T>)
    requires !s.done && s.isIdle && !s.disposed
    ensures Run(s, Values(vs)).downstream == s.downstream
    ensures Run(s, Values(vs)).bufferedValue == (if vs == [] then s.bufferedValue else Some(vs[|vs| - 1]))
    ensures Run(s, Values(vs)).isIdle
    decreases |vs|
  {
    if vs != [] {
      assert Values(vs)[1..] == Values(vs[1..]);
      KeepsNewestWhileIdle(OnNextStep(s, vs[0]), vs[1..]);
    }
  }

  /** The idle signal turning off flushes a buffered value exactly once and empties the
      slot; a second `false` with no new values sends nothing. */
  lemma FlushesOnce<T>(s: BufferState<T>)
    requires !s.done
    ensures var r := OnIdleStep(s, false);
            && r.downstream == s.downstream + OptionToSeq(if s.bufferedValue.Some? then Some(Next(s.bufferedValue.value)) else None)
            && r.bufferedValue == None
            && !r.isIdle
            && OnIdleStep(r, false) == r
  {
  }

  /** The idle signal turning on changes nothing but the flag. */
  lemma IdleOnKeepsBuffer<T>(s: BufferState<T>)
    ensures OnIdleStep(s, true) == s.(isIdle := true)
    ensures OnIdleStep(s, true).bufferedValue == s.bufferedValue
    ensures OnIdleStep(s, true).downstream == s.downstream
  {
  }

  /** A value held back while the observer was idle, followed by the end of the stream,
      never reaches downstream. */
  lemma BufferedValueDroppedOnTerminal<T>(s: BufferState<T>, e: Throwable, later: seq<Signal<T>>)
    requires !s.done && s.isIdle && s.bufferedValue.Some?
    ensures Run(OnErrorStep(s, e), later).downstream == s.downstream + [Error(e)]
    ensures Run(OnCompleteStep(s), later).downstream == s.downstream + [Complete]
  {
    NothingAfterDone(OnErrorStep(s, e), later);
    NothingAfterDone(OnCompleteStep(s), later);
  }

  // ---------------------------------------------------------------------------
  // The observer object
  // ---------------------------------------------------------------------------

  class ObserverWithBuffer<T> {
    var subscribed: bool
    var disposed: bool
    var done: bool
    var isIdle: bool
    var bufferedValue: Option<T>
    /** Everything passed to the downstream observer, oldest first. */
    var downstream: seq<Event<T>>
    /** Errors handed to the global error handler instead of downstream. */
    var undeliverable: seq<Throwable>

    function Current(): BufferState<T>
      reads this
    {
      BufferState(subscribed, disposed, done, isIdle, bufferedValue, downstream, undeliverable)
    }

    ghost predicate Valid()
      reads this
    {
      WellFormed(Current())
    }

    constructor ()
      ensures Valid()
      ensures Current() == Fresh()
    {
      subscribed, disposed, done, isIdle := false, false, false, false;
      bufferedValue := None;
      downstream, undeliverable := [], [];
    }

    method OnNext(v: T)
      requires Valid()
      modifies this
      ensures Valid()
      ensures Current() == OnNextStep(old(Current()), v)
    {
      OnNextKeepsWellFormed(Current(), v);
      if done {
        return;
      }
      if isIdle {
        bufferedValue := Some(v);
      } else {
        downstream := downstream + [Next(v)];
      }
    }

    /** The callback of the idle subscription made in `OnSubscribe`. */
    method OnIdle(idle: bool)
      requires Valid()
      modifies this
      ensures Valid()
      ensures Current() == OnIdleStep(old(Current()), idle)
    {
      ghost var before := Current();
      if idle {
        isIdle := true;
      } else {
        isIdle := false;
        if bufferedValue.Some? {
          OnNext(bufferedValue.value);
        }
        bufferedValue := None;
      }
      OnIdleKeepsWellFormed(before, idle);
    }

    /** `onSubscribe`: `idleNow` is the value the idle source replays to a new subscriber. */
    method OnSubscribe(idleNow: Option<bool>)
      requires Valid()
      modifies this
      ensures Valid()
      ensures Current() == OnSubscribeStep(old(Current()), idleNow)
    {
      if idleNow.Some? {
        OnIdle(idleNow.value);
      }
      subscribed := true;
    }

    method OnError(e: Throwable)
      requires Valid()
      modifies this
      ensures Valid()
      ensures Current() == OnErrorStep(old(Current()), e)
    {
      if done {
        undeliverable := undeliverable + [e];
        return;
      }
      done := true;
      disposed := true;
      downstream := downstream + [Error(e)];
    }

    method OnComplete()
      requires Valid()
      modifies this
      ensures Valid()
      ensures Current() == OnCompleteStep(old(Current()))
    {
      if done {
        return;
      }
      done := true;
      disposed := true;
      downstream := downstream + [Complete];
    }

    /** The downstream observer disposing the composite it received in `onSubscribe`,
        which holds both the upstream and the idle subscription: afterwards neither
        delivers, and by `NothingAfterDispose` downstream receives nothing more. */
    method Dispose()
      requires Valid()
      modifies this
      ensures Valid()
      ensures Current() == DisposeStep(old(Current()))
      ensures !IdleLive(Current()) && (done || !UpstreamLive(Current()))
    {
      disposed := true;
    }
  }
}
