/** `PmActivityDelegate`: routes an activity's callbacks to lifecycle steps of its
    presentation model, and decides on the final teardown whether the model is destroyed
    or retained. The common delegate it forwards to is taken as a sink that gives the
    model the matching lifecycle value. */
module ActivityDelegates {
  import opened Reactive
  import opened Lifecycles

  /** `RetainMode`: destroy when the activity finishes, or keep the model across
      configuration changes. */
  datatype RetainMode = IsFinishing | ConfigurationChanges

  /** The retain decision `onDestroy` makes after unbinding. */
  function ShouldDestroy(retainMode: RetainMode, isFinishing: bool, isChangingConfigurations: bool): bool
  {
    match retainMode
    case IsFinishing => isFinishing
    case ConfigurationChanges => !isChangingConfigurations
  }

  /** The activity callbacks the delegate must be given. */
  datatype Callback =
    | Create
    | PostCreate
    | Start
    | Resume
    | SaveInstanceState
    | Pause
    | Stop
    | Destroy(isFinishing: bool, isChangingConfigurations: bool)

  /** The lifecycle values one callback gives the model, in order. */
  function Issued(retainMode: RetainMode, c: Callback): seq<Lifecycle>
  {
    match c
    case Create => [Created]
    case PostCreate => [Binded]
    case Start => []
    case Resume => [Resumed]
    case SaveInstanceState => [Paused]
    case Pause => [Paused]
    case Stop => []
    case Destroy(f, g) => [Unbinded] + (if ShouldDestroy(retainMode, f, g) then [Destroyed] else [])
  }

  // ---------------------------------------------------------------------------
  // Properties
  // ---------------------------------------------------------------------------

  /** `onDestroy` always unbinds, and then destroys exactly when the retain mode says so:
      with IS_FINISHING when the activity is finishing, with CONFIGURATION_CHANGES when it
      is not changing configurations. */
  lemma DestroyDecision(retainMode: RetainMode, isFinishing: bool, isChangingConfigurations: bool)
    ensures var issued := Issued(retainMode, Destroy(isFinishing, isChangingConfigurations));
            && issued != [] && issued[0] == Unbinded
            && (Destroyed in issued <==>
                 (if retainMode == IsFinishing then isFinishing else !isChangingConfigurations))
            && LegalPath([Paused] + issued)
  {
  }

  /** The two modes decide differently exactly when the activity is finishing and changing
      configurations at once, or doing neither. */
  lemma ModesDisagree(isFinishing: bool, isChangingConfigurations: bool)
    ensures ShouldDestroy(IsFinishing, isFinishing, isChangingConfigurations) !=
            ShouldDestroy(ConfigurationChanges, isFinishing, isChangingConfigurations)
            <==> isFinishing == isChangingConfigurations
  {
  }

  /** What a whole activity life issues, callback by callback: create, post-create, start,
      resume, optionally save instance state, pause, stop, and a finishing destroy. */
  function ActivityLife(retainMode: RetainMode, saveState: bool): seq<Lifecycle>
  {
    Issued(retainMode, Create) + Issued(retainMode, PostCreate) + Issued(retainMode, Start) +
    Issued(retainMode, Resume) +
    (if saveState then Issued(retainMode, SaveInstanceState) else []) +
    Issued(retainMode, Pause) + Issued(retainMode, Stop) + Issued(retainMode, Destroy(true, false))
  }

  /** A whole activity life gives the model the full lifecycle once each, in order, in
      either retain mode; saving instance state before pausing issues PAUSED twice, and
      the second one is filtered out. */
  lemma FullActivityLife(retainMode: RetainMode, saveState: bool)
    ensures Distinct(ActivityLife(retainMode, saveState)) == [Created, Binded, Resumed, Paused, Unbinded, Destroyed]
  {
    var before, after := [Created, Binded, Resumed], [Unbinded, Destroyed];
    var full := [Created, Binded, Resumed, Paused, Unbinded, Destroyed];
    ActivityLifeIssues(retainMode, saveState);
    PassesFullLife();
    assert before + [Paused] + after == full;
    if saveState {
      assert ActivityLife(retainMode, saveState) == before + [Paused, Paused] + after;
      DistinctCollapsesRepeatWithin(before, Paused, after);
    } else {
      assert ActivityLife(retainMode, saveState) == full;
    }
  }

  lemma ActivityLifeIssues(retainMode: RetainMode, saveState: bool)
    ensures ActivityLife(retainMode, saveState) ==
            [Created, Binded, Resumed] + (if saveState then [Paused, Paused] else [Paused]) + [Unbinded, Destroyed]
  {
    assert Issued(retainMode, Destroy(true, false)) == [Unbinded, Destroyed];
  }

  lemma PassesFullLife()
    ensures Distinct([Created, Binded, Resumed, Paused, Unbinded, Destroyed]) ==
            [Created, Binded, Resumed, Paused, Unbinded, Destroyed]
  {
    var full := [Created, Binded, Resumed, Paused, Unbinded, Destroyed];
    assert LegalPath(full);
    LegalPathPassesDistinct(full);
  }

  /** A fresh model driven along any legal life from CREATED to DESTROYED, such as the one
      `FullActivityLife` shows, runs every hook once, in order, and ends destroyed, paused
      and unbound with its destroy registry emptied. */
  lemma FullLifeRunsEveryHook(life: seq<Lifecycle>)
    requires LegalPath(life) && life != [] && life[0] == Created && life[|life| - 1] == Destroyed
    ensures var m := Steps(Initial, life);
            && m.hooks == life
            && m.lifecycle == Some(Destroyed)
            && m.paused && m.unbind
            && m.compositeDestroy == {}
  {
    StartRunsHooks(life);
    FullLifeFlags(life);
    FullLifeClears(life);
  }

  lemma StartRunsHooks(vs: seq<Lifecycle>)
    requires LegalPath(vs)
    ensures Steps(Initial, vs).hooks == vs
    ensures Steps(Initial, vs).lifecycle == LastOf(vs)
  {
    assert OptionToSeq(Initial.lifecycle) + vs == vs;
    LegalStepsRunEveryHook(Initial, vs);
  }

  lemma FullLifeClears(life: seq<Lifecycle>)
    requires LegalPath(life) && life != [] && life[|life| - 1] == Destroyed
    ensures Steps(Initial, life).compositeDestroy == {}
  {
    var init := life[..|life| - 1];
    assert LegalPath(init);
    DestroyedOnlyLast(life);
    StartRunsHooks(init);
    LastStepClears(Steps(Initial, init));
    assert Steps(Initial, life) == Step(Steps(Initial, init), Destroyed);
  }

  /** DESTROYED reaching a handler that has not stopped empties the destroy registry. */
  lemma LastStepClears(m: ModelState)
    requires Destroyed !in m.hooks && m.lifecycle != Some(Destroyed)
    ensures Step(m, Destroyed).compositeDestroy == {}
  {
  }

  lemma FullLifeFlags(life: seq<Lifecycle>)
    requires LegalPath(life) && life != [] && life[0] == Created && life[|life| - 1] == Destroyed
    requires Steps(Initial, life).hooks == life
    ensures Steps(Initial, life).paused && Steps(Initial, life).unbind
  {
    StepsConsistent(Initial, life);
    PausedOnLegalPath(life);
    UnbindOnLegalPath(life);
  }

  // ---------------------------------------------------------------------------
  // The delegate object
  // ---------------------------------------------------------------------------

  class PmActivityDelegate {
    const retainMode: RetainMode
    /** `presentationModel`, as the common delegate provides it. */
    const presentationModel: PresentationModel

    constructor (presentationModel: PresentationModel, retainMode: RetainMode)
      ensures this.presentationModel == presentationModel && this.retainMode == retainMode
    {
      this.presentationModel := presentationModel;
      this.retainMode := retainMode;
    }

    /** One callback: the model accepts what `Issued` lists. */
    method Deliver(c: Callback)
      requires presentationModel.Valid()
      modifies presentationModel
      ensures presentationModel.Valid()
      ensures presentationModel.Current() == Steps(old(presentationModel.Current()), Issued(retainMode, c))
    {
      ghost var before := presentationModel.Current();
      match c {
        case Create =>
          StepsOne(before, Created);
          OnCreate();
        case PostCreate =>
          StepsOne(before, Binded);
          OnPostCreate();
        case Start =>
          OnStart();
        case Resume =>
          StepsOne(before, Resumed);
          OnResume();
        case SaveInstanceState =>
          StepsOne(before, Paused);
          OnSaveInstanceState();
        case Pause =>
          StepsOne(before, Paused);
          OnPause();
        case Stop =>
          OnStop();
        case Destroy(f, g) =>
          OnDestroy(f, g);
      }
    }

    method OnCreate()
      requires presentationModel.Valid()
      modifies presentationModel
      ensures presentationModel.Valid()
      ensures presentationModel.Current() == Step(old(presentationModel.Current()), Created)
    {
      presentationModel.Accept(Created);
    }

    /** `onPostCreate` binds. */
    method OnPostCreate()
      requires presentationModel.Valid()
      modifies presentationModel
      ensures presentationModel.Valid()
      ensures presentationModel.Current() == Step(old(presentationModel.Current()), Binded)
    {
      presentationModel.Accept(Binded);
    }

    /** `onStart` changes nothing. */
    method OnStart()
    {
    }

    method OnResume()
      requires presentationModel.Valid()
      modifies presentationModel
      ensures presentationModel.Valid()
      ensures presentationModel.Current() == Step(old(presentationModel.Current()), Resumed)
    {
      presentationModel.Accept(Resumed);
    }

    /** `onSaveInstanceState`: the common delegate saves its state, then the model pauses. */
    method OnSaveInstanceState()
      requires presentationModel.Valid()
      modifies presentationModel
      ensures presentationModel.Valid()
      ensures presentationModel.Current() == Step(old(presentationModel.Current()), Paused)
    {
      presentationModel.Accept(Paused);
    }

    method OnPause()
      requires presentationModel.Valid()
      modifies presentationModel
      ensures presentationModel.Valid()
      ensures presentationModel.Current() == Step(old(presentationModel.Current()), Paused)
    {
      presentationModel.Accept(Paused);
    }

    /** `onStop` changes nothing. */
    method OnStop()
    {
    }

    /** `onDestroy`: unbind, then destroy if the retain mode says so. */
    method OnDestroy(isFinishing: bool, isChangingConfigurations: bool)
      requires presentationModel.Valid()
      modifies presentationModel
      ensures presentationModel.Valid()
      ensures presentationModel.Current() ==
              Steps(old(presentationModel.Current()),
                    [Unbinded] + (if ShouldDestroy(retainMode, isFinishing, isChangingConfigurations) then [Destroyed] else []))
    {
      ghost var before := presentationModel.Current();
      StepsOne(before, Unbinded);
      StepsTwo(before, Unbinded, Destroyed);
      presentationModel.Accept(Unbinded);
      match retainMode {
        case IsFinishing =>
          if isFinishing {
            presentationModel.Accept(Destroyed);
          }
        case ConfigurationChanges =>
          if !isChangingConfigurations {
            presentationModel.Accept(Destroyed);
          }
      }
    }
  }
}
