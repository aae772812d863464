/** `DialogControl<T, R>`: a child presentation model that tells a view whether a dialog is
    displayed (and with which data) and carries the dialog's result back. Its `displayed`
    state starts `Absent`; `show` and `showForResult` dismiss first; `sendResult` emits the
    result and then dismisses. A `showForResult` request ends with the first result, or
    empty once the dialog is next dismissed. Dialog data are compared with Dafny's `==`,
    which stands for the data class's `equals`. */
module Dialogs {
  import opened Reactive
  import opened Lifecycles

  /** `DialogControl.Display`. */
  datatype Display<T> = Displayed(data: T) | Absent

  /** The `Maybe` returned by `showForResult`, as its subscriber sees it. */
  datatype Request<R> = Waiting | Got(result: R) | Empty

  /** The control at one moment: every value the `displayed` relay has held (the initial
      `Absent` first), every result emitted on the `result` action, and the requests made
      by `showForResult`, oldest first. */
  datatype DialogState<T, R> = DialogState(displayed: seq<Display<T>>, results: seq<R>, requests: seq<Request<R>>)

  /** A new control: `Absent`, nothing emitted, no requests. */
  function Fresh<T, R>(): DialogState<T, R>
  {
    DialogState([Absent], [], [])
  }

  /** Every request still waiting ends as `outcome`; the others stay as they were. */
  function Settle<R>(requests: seq<Request<R>>, outcome: Request<R>): (r: seq<Request<R>>)
    ensures |r| == |requests|
    ensures forall i :: 0 <= i < |r| ==> r[i] == (if requests[i].Waiting? then outcome else requests[i])
  {
    if requests == [] then []
    else [if requests[0].Waiting? then outcome else requests[0]] + Settle(requests[1..], outcome)
  }

  /** The `displayed` relay taking a value. A waiting request observes `displayed`
      through its distinct filter, and ends empty when that shows `Absent`. */
  function AcceptDisplay<T(==), R>(s: DialogState<T, R>, d: Display<T>): DialogState<T, R>
  {
    var shown := LastOf(s.displayed) != Some(d);
    s.(displayed := s.displayed + [d],
       requests := if d.Absent? && shown then Settle(s.requests, Empty) else s.requests)
  }

  function CurrentDisplay<T, R>(s: DialogState<T, R>): Option<Display<T>>
  {
    LastOf(s.displayed)
  }

  /** `dismiss()`: `Absent` is accepted only while a dialog is displayed. */
  function DismissStep<T(==), R>(s: DialogState<T, R>): DialogState<T, R>
  {
    if CurrentDisplay(s).Some? && CurrentDisplay(s).value.Displayed? then AcceptDisplay(s, Absent) else s
  }

  /** `show(data)`. */
  function ShowStep<T(==), R>(s: DialogState<T, R>, data: T): DialogState<T, R>
  {
    AcceptDisplay(DismissStep(s), Displayed(data))
  }

  /** `showForResult(data)` with its `Maybe` subscribed at once: dismiss, then the
      subscription (which starts waiting) displays the data. */
  function ShowForResultStep<T(==), R>(s: DialogState<T, R>, data: T): DialogState<T, R>
  {
    var t := DismissStep(s);
    AcceptDisplay(t.(requests := t.requests + [Waiting]), Displayed(data))
  }

  /** `sendResult(r)`: the result goes out first, ending every waiting request with it,
      and then the dialog is dismissed. */
  function SendResultStep<T(==), R>(s: DialogState<T, R>, r: R): DialogState<T, R>
  {
    DismissStep(s.(results := s.results + [r], requests := Settle(s.requests, Got(r))))
  }

  /** The displayed relay alternates: `Absent` at even positions, a displayed dialog at
      odd ones. So the view never sees one dialog replaced by another without a
      dismissal in between. */
  predicate Alternates<T, R>(s: DialogState<T, R>)
  {
    AlternatingDisplays(s.displayed)
  }

  predicate AlternatingDisplays<T>(ds: seq<Display<T>>)
  {
    && ds != []
    && forall i :: 0 <= i < |ds| ==> (ds[i].Absent? <==> i % 2 == 0)
  }

  // ---------------------------------------------------------------------------
  // Properties
  // ---------------------------------------------------------------------------

  lemma FreshIsAbsent<T, R>()
    ensures Alternates(Fresh<T, R>())
    ensures CurrentDisplay(Fresh<T, R>()) == Some(Absent)
  {
  }

  lemma AcceptAlternates<T, R>(s: DialogState<T, R>, d: Display<T>)
    requires Alternates(s)
    requires d.Absent? <==> s.displayed[|s.displayed| - 1].Displayed?
    ensures Alternates(AcceptDisplay(s, d))
  {
    DisplaysAppend(s.displayed, d);
    assert AcceptDisplay(s, d).displayed == s.displayed + [d];
  }

  lemma DisplaysAppend<T>(ds: seq<Display<T>>, d: Display<T>)
    requires AlternatingDisplays(ds)
    requires d.Absent? <==> ds[|ds| - 1].Displayed?
    ensures AlternatingDisplays(ds + [d])
  {
    var n := |ds|;
    assert ds[n - 1].Absent? <==> (n - 1) % 2 == 0;
    forall i | 0 <= i < n + 1 ensures (ds + [d])[i].Absent? <==> i % 2 == 0 {
      if i < n {
        assert (ds + [d])[i] == ds[i];
      }
    }
  }

  /** `dismiss` leaves no dialog displayed, keeps the relay alternating, and a second call
      changes nothing. */
  lemma DismissIdempotent<T, R>(s: DialogState<T, R>)
    requires Alternates(s)
    ensures Alternates(DismissStep(s))
    ensures CurrentDisplay(DismissStep(s)) == Some(Absent)
    ensures DismissStep(DismissStep(s)) == DismissStep(s)
    ensures CurrentDisplay(s) == Some(Absent) ==> DismissStep(s) == s
  {
    if s.displayed[|s.displayed| - 1].Displayed? {
      AcceptAlternates(s, Absent);
    }
  }

  /** `show(data)` displays `data`, passing through `Absent` first when another dialog
      was displayed. */
  lemma ShowDisplays<T, R>(s: DialogState<T, R>, data: T)
    requires Alternates(s)
    ensures Alternates(ShowStep(s, data))
    ensures CurrentDisplay(ShowStep(s, data)) == Some(Displayed(data))
    ensures ShowStep(s, data).displayed ==
            s.displayed + (if CurrentDisplay(s) == Some(Absent) then [] else [Absent]) + [Displayed(data)]
    ensures ShowStep(s, data).results == s.results
  {
    DismissIdempotent(s);
    AcceptAlternates(DismissStep(s), Displayed(data));
  }

  /** `sendResult(r)` emits `r`, ends every waiting request with `r`, and leaves no dialog
      displayed. */
  lemma SendResultSettles<T, R>(s: DialogState<T, R>, r: R)
    requires Alternates(s)
    ensures var t := SendResultStep(s, r);
            && Alternates(t)
            && t.results == s.results + [r]
            && CurrentDisplay(t) == Some(Absent)
            && |t.requests| == |s.requests|
            && forall i :: 0 <= i < |s.requests| ==>
                 t.requests[i] == (if s.requests[i].Waiting? then Got(r) else s.requests[i])
  {
    var u := s.(results := s.results + [r], requests := Settle(s.requests, Got(r)));
    DismissIdempotent(u);
    if u.displayed[|u.displayed| - 1].Displayed? {
      assert forall i :: 0 <= i < |u.requests| ==> !u.requests[i].Waiting?;
    }
  }

  /** `showForResult(data)` displays `data` and opens one new waiting request. */
  lemma ShowForResultWaits<T, R>(s: DialogState<T, R>, data: T)
    requires Alternates(s)
    ensures var t := ShowForResultStep(s, data);
            && Alternates(t)
            && CurrentDisplay(t) == Some(Displayed(data))
            && |t.requests| == |s.requests| + 1
            && t.requests[|s.requests|] == Waiting
            && t.results == s.results
  {
    DismissIdempotent(s);
    var u := DismissStep(s);
    AcceptAlternates(u.(requests := u.requests + [Waiting]), Displayed(data));
  }

  /** A waiting request ends with the next result sent. */
  lemma RequestGetsResult<T, R>(s: DialogState<T, R>, i: nat, r: R)
    requires Alternates(s) && i < |s.requests| && s.requests[i].Waiting?
    ensures SendResultStep(s, r).requests[i] == Got(r)
  {
    SendResultSettles(s, r);
  }

  /** A request waiting while its dialog is displayed ends empty when the dialog is
      dismissed, whether by `dismiss` or by `show` of another dialog. */
  lemma RequestEndsEmptyOnDismiss<T, R>(s: DialogState<T, R>, i: nat, data: T)
    requires Alternates(s) && i < |s.requests| && s.requests[i].Waiting?
    requires CurrentDisplay(s).Some? && CurrentDisplay(s).value.Displayed?
    ensures DismissStep(s).requests[i] == Empty
    ensures ShowStep(s, data).requests[i] == Empty
  {
    DismissIdempotent(s);
  }

  /** Once a request has ended, nothing changes its outcome. */
  lemma EndedRequestsStay<T, R>(s: DialogState<T, R>, i: nat, data: T, r: R)
    requires Alternates(s) && i < |s.requests| && !s.requests[i].Waiting?
    ensures DismissStep(s).requests[i] == s.requests[i]
    ensures ShowStep(s, data).requests[i] == s.requests[i]
    ensures ShowForResultStep(s, data).requests[i] == s.requests[i]
    ensures SendResultStep(s, r).requests[i] == s.requests[i]
  {
    DismissIdempotent(s);
    SendResultSettles(s, r);
  }

  /** Because the relay alternates, the `displayed` observable's distinct filter never
      drops anything. */
  lemma {:induction false} AlternatingPassesDistinct<T, R>(s: DialogState<T, R>)
    requires Alternates(s)
    ensures Distinct(s.displayed) == s.displayed
  {
    var d := s.displayed;
    forall i | 0 < i < |d| ensures d[i - 1] != d[i] {
      assert d[i - 1].Absent? <==> (i - 1) % 2 == 0;
    }
    DistinctOfDuplicateFree(d);
  }

  // ---------------------------------------------------------------------------
  // The control object
  // ---------------------------------------------------------------------------

  class DialogControl<T(==), R> {
    /** The control's own presentation model, attached to the model that created it. */
    const model: PresentationModel
    var displayed: seq<Display<T>>
    var results: seq<R>
    var requests: seq<Request<R>>

    function Current(): DialogState<T, R>
      reads this
    {
      DialogState(displayed, results, requests)
    }

    ghost predicate Valid()
      reads this
    {
      Alternates(Current())
    }

    constructor ()
      ensures Valid() && Current() == Fresh()
      ensures fresh(model) && model.Valid() && model.Current() == Initial && !model.navigational
    {
      model := new PresentationModel(false);
      displayed, results, requests := [Absent], [], [];
    }

    /** `displayed.valueOrNull`, never null since the relay starts with `Absent`: a dialog is
        displayed exactly after an odd number of changes of the relay. */
    function DisplayedValue(): (r: Display<T>)
      reads this
      requires Valid()
      ensures Some(r) == CurrentDisplay(Current())
      ensures r.Absent? <==> |displayed| % 2 == 1
    {
      displayed[|displayed| - 1]
    }

    method AcceptDisplayed(d: Display<T>)
      requires Valid()
      requires d.Absent? <==> DisplayedValue().Displayed?
      modifies this
      ensures Valid()
      ensures Current() == AcceptDisplay(old(Current()), d)
    {
      AcceptAlternates(Current(), d);
      if d.Absent? && displayed[|displayed| - 1] != d {
        requests := Settle(requests, Empty);
      }
      displayed := displayed + [d];
    }

    method Dismiss()
      requires Valid()
      modifies this
      ensures Valid()
      ensures Current() == DismissStep(old(Current()))
    {
      if DisplayedValue().Displayed? {
        AcceptDisplayed(Absent);
      }
    }

    method Show(data: T)
      requires Valid()
      modifies this
      ensures Valid()
      ensures Current() == ShowStep(old(Current()), data)
    {
      Dismiss();
      AcceptDisplayed(Displayed(data));
    }

    /** Returns the position of the new request among `requests`. */
    method ShowForResult(data: T) returns (request: nat)
      requires Valid()
      modifies this
      ensures Valid()
      ensures Current() == ShowForResultStep(old(Current()), data)
      ensures request == |old(requests)| && requests[request] == Waiting
    {
      Dismiss();
      request := |requests|;
      requests := requests + [Waiting];
      AcceptDisplayed(Displayed(data));
    }

    method SendResult(r: R)
      requires Valid()
      modifies this
      ensures Valid()
      ensures Current() == SendResultStep(old(Current()), r)
    {
      results := results + [r];
      requests := Settle(requests, Got(r));
      Dismiss();
    }
  }

  /** `dialogControl()`: creates a control and attaches its model as a child of `parent`;
      that fails only beneath a destroyed parent. */
  method NewDialogControl<T(==), R>(parent: PresentationModel) returns (dc: DialogControl<T, R>, r: Outcome<Fault>)
    requires parent.Valid()
    ensures fresh(dc) && dc.Valid() && dc.Current() == Fresh()
    ensures dc.model.Valid()
    ensures r.Fail? <==> parent.lifecycle == Some(Destroyed)
    ensures r.Fail? ==> r.error == IllegalState
    ensures r.Pass? ==> dc.model.accepted == AttachPrefix(parent.lifecycle).value
  {
    dc := new DialogControl();
    r := dc.model.AttachToParent(parent);
  }
}
