/** The drawing scene of src/components/GameScene.jsx: a bamboo tube that shakes, a stick that
    drops, and one button whose role changes with the phase. Its three state fields are updated
    by `startDrawing`, by the two timer callbacks `startDrawing` schedules, and by `reset`, which
    also runs whenever the deity changes.

    Timers are not real here. Each scheduled callback is an entry in a queue; the callback firing
    is an explicit event. An entry holds the deity data its closure captured when `startDrawing`
    ran. `Math.random()` is a real number `r` in [0, 1) supplied with the event that uses it. */
module GameScene {
  import opened Wrappers
  import opened Fortunes

  /** `stickState`: 'hidden' or 'dropping' (the comment in the source also names 'dropped',
      which nothing ever sets). */
  datatype StickState = Hidden | Dropping

  /** `btnState`: 'start', 'drawing' or 'reset'. */
  datatype BtnState = StartButton | DrawingButton | ResetButton

  /** What clicking the single button does. */
  datatype ButtonAction = StartDrawingAction | ResetAction

  /** The button that is rendered for each `btnState`: 'start' runs `startDrawing`, 'reset' runs
      `reset`, and the 'drawing' button is disabled. */
  function ButtonActionOf(b: BtnState): (a: Option<ButtonAction>)
    ensures a.None? <==> b == DrawingButton
    ensures a == Some(StartDrawingAction) <==> b == StartButton
    ensures a == Some(ResetAction) <==> b == ResetButton
  {
    match b
    case StartButton => Some(StartDrawingAction)
    case DrawingButton => None
    case ResetButton => Some(ResetAction)
  }

  /** Delay of the first timer in milliseconds, `2000 + Math.random() * 1000`. */
  function ShakeDelayMs(r: real): (d: real)
    requires 0.0 <= r < 1.0
    ensures 2000.0 <= d < 3000.0
  {
    2000.0 + r * 1000.0
  }

  /** Delay of the second timer in milliseconds, fixed. */
  const DropDelayMs: nat := 1500

  lemma ScaleBelow(r: real, n: nat)
    requires 0.0 <= r < 1.0 && n > 0
    ensures 0.0 <= r * n as real < n as real
  {
    assert (1.0 - r) * n as real > 0.0;
  }

  /** `Math.floor(Math.random() * length)`: an index into a non-empty list, and 0 for an empty one. */
  function DrawIndex(r: real, n: nat): (i: nat)
    requires 0.0 <= r < 1.0
    ensures n > 0 ==> i < n
    ensures n == 0 ==> i == 0
  {
    if n == 0 then 0
    else
      ScaleBelow(r, n);
      (r * n as real).Floor
  }

  /** Every index can be drawn: the random value i/n draws index i. */
  lemma DrawIndexReachesAll(n: nat, i: nat)
    requires i < n
    ensures 0.0 <= i as real / n as real < 1.0
    ensures DrawIndex(i as real / n as real, n) == i
  {
    var nr := n as real;
    var r := i as real / nr;
    assert r * nr == i as real;
    assert (1.0 - r) * nr == (n - i) as real;
    if r >= 1.0 {
      assert false;
    }
  }

  /** `deity.data[randomIndex]`: the entry at the drawn index, or None (`undefined`) when the
      list is empty. */
  function Draw(data: seq<Fortune>, r: real): (f: Option<Fortune>)
    requires 0.0 <= r < 1.0
    ensures f.Some? <==> |data| > 0
    ensures f.Some? ==> f.value in data
  {
    var i := DrawIndex(r, |data|);
    if i < |data| then Some(data[i]) else None
  }

  /** A deity with a single stick always yields that stick. */
  lemma DrawSingleton(f: Fortune, r: real)
    requires 0.0 <= r < 1.0
    ensures Draw([f], r) == Some(f)
  {
  }

  /** The whole state of the scene, including the pending callbacks and the values handed to
      `onDrawComplete` so far. */
  datatype SceneState = SceneState(
    data: seq<Fortune>,
    isShaking: bool,
    stickState: StickState,
    btnState: BtnState,
    shakeTimers: seq<seq<Fortune>>,
    dropTimers: seq<seq<Fortune>>,
    reported: seq<Option<Fortune>>)

  /** The state when the scene mounts for a deity whose stick list is `data`. */
  function Initial(data: seq<Fortune>): SceneState {
    SceneState(data, false, Hidden, StartButton, [], [], [])
  }

  /** `startDrawing`: a no-op while shaking; otherwise shaking starts, the button shows
      'drawing' and the first callback is scheduled. The stick is left as it was. */
  function AfterStart(s: SceneState): SceneState {
    if s.isShaking then s
    else s.(isShaking := true, btnState := DrawingButton, shakeTimers := s.shakeTimers + [s.data])
  }

  /** The first callback fires: shaking stops, the stick drops, and the second callback is
      scheduled with the same captured data. */
  function AfterShake(s: SceneState): SceneState
    requires s.shakeTimers != []
  {
    s.(isShaking := false, stickState := Dropping,
       shakeTimers := s.shakeTimers[1..], dropTimers := s.dropTimers + [s.shakeTimers[0]])
  }

  /** The second callback fires: one entry is drawn from the captured data, handed to
      `onDrawComplete`, and the button offers 'reset'. */
  function AfterDrop(s: SceneState, r: real): SceneState
    requires s.dropTimers != [] && 0.0 <= r < 1.0
  {
    s.(dropTimers := s.dropTimers[1..], reported := s.reported + [Draw(s.dropTimers[0], r)],
       btnState := ResetButton)
  }

  /** `reset`: only the stick and the button change. */
  function AfterReset(s: SceneState): (t: SceneState)
    ensures t.stickState == Hidden && t.btnState == StartButton
    ensures t.(stickState := s.stickState, btnState := s.btnState) == s
  {
    s.(stickState := Hidden, btnState := StartButton)
  }

  /** The deity changes: the new data is rendered and the effect runs `reset`. */
  function AfterDeityChange(s: SceneState, data: seq<Fortune>): SceneState {
    AfterReset(s.(data := data))
  }

  /** A click on the rendered button. */
  function AfterClick(s: SceneState): SceneState {
    match ButtonActionOf(s.btnState)
    case None => s
    case Some(StartDrawingAction) => AfterStart(s)
    case Some(ResetAction) => AfterReset(s)
  }

  /** What can happen to the scene: a click, a timer firing, or a new deity. */
  datatype Event = Click | ShakeTimer | DropTimer(r: real) | NewDeity(data: seq<Fortune>)

  /** A timer fires only if it was scheduled and has not fired yet. */
  predicate Enabled(s: SceneState, e: Event) {
    match e
    case ShakeTimer => s.shakeTimers != []
    case DropTimer(r) => s.dropTimers != [] && 0.0 <= r < 1.0
    case _ => true
  }

  function Step(s: SceneState, e: Event): SceneState
    requires Enabled(s, e)
  {
    match e
    case Click => AfterClick(s)
    case ShakeTimer => AfterShake(s)
    case DropTimer(r) => AfterDrop(s, r)
    case NewDeity(data) => AfterDeityChange(s, data)
  }

  predicate CanRun(s: SceneState, es: seq<Event>)
    decreases |es|
  {
    es == [] || (Enabled(s, es[0]) && CanRun(Step(s, es[0]), es[1..]))
  }

  function Run(s: SceneState, es: seq<Event>): SceneState
    requires CanRun(s, es)
    decreases |es|
  {
    if es == [] then s else Run(Step(s, es[0]), es[1..])
  }

  /** The re-entry guard: at most one first callback is ever pending, and it is pending exactly
      while the tube shakes. */
  predicate OneShakeAtATime(s: SceneState) {
    |s.shakeTimers| <= 1 && (s.isShaking <==> |s.shakeTimers| == 1)
  }

  lemma StepKeepsOneShake(s: SceneState, e: Event)
    requires OneShakeAtATime(s) && Enabled(s, e)
    ensures OneShakeAtATime(Step(s, e))
  {
  }

  lemma {:induction false} RunKeepsOneShake(s: SceneState, es: seq<Event>)
    requires OneShakeAtATime(s) && CanRun(s, es)
    ensures OneShakeAtATime(Run(s, es))
    decreases |es|
  {
    if es != [] {
      StepKeepsOneShake(s, es[0]);
      RunKeepsOneShake(Step(s, es[0]), es[1..]);
    }
  }

  /** Whatever happens, from mounting on, a second `startDrawing` never schedules a second shake. */
  lemma NeverTwoShakes(data: seq<Fortune>, es: seq<Event>)
    requires CanRun(Initial(data), es)
    ensures |Run(Initial(data), es).shakeTimers| <= 1
  {
    RunKeepsOneShake(Initial(data), es);
  }

  /** Draws started and not yet reported. */
  function InFlight(s: SceneState): nat {
    |s.shakeTimers| + |s.dropTimers|
  }

  /** Whether the event makes `startDrawing` get past its guard. */
  predicate StartsDraw(s: SceneState, e: Event) {
    e == Click && s.btnState == StartButton && !s.isShaking
  }

  function DrawsStarted(s: SceneState, es: seq<Event>): nat
    requires CanRun(s, es)
    decreases |es|
  {
    if es == [] then 0
    else (if StartsDraw(s, es[0]) then 1 else 0) + DrawsStarted(Step(s, es[0]), es[1..])
  }

  lemma StepAccounting(s: SceneState, e: Event)
    requires Enabled(s, e)
    ensures var t := Step(s, e);
      && |s.reported| <= |t.reported| && t.reported[..|s.reported|] == s.reported
      && |t.reported| + InFlight(t) == |s.reported| + InFlight(s) + (if StartsDraw(s, e) then 1 else 0)
  {
  }

  /** `onDrawComplete` is called once for every draw that got past the guard: what was reported
      before stays, and every started draw is either reported or still pending. */
  lemma {:induction false} RunAccounting(s: SceneState, es: seq<Event>)
    requires CanRun(s, es)
    ensures var t := Run(s, es);
      && |s.reported| <= |t.reported| && t.reported[..|s.reported|] == s.reported
      && |t.reported| + InFlight(t) == |s.reported| + InFlight(s) + DrawsStarted(s, es)
    decreases |es|
  {
    if es != [] {
      var s1 := Step(s, es[0]);
      StepAccounting(s, es[0]);
      RunAccounting(s1, es[1..]);
      var t := Run(s1, es[1..]);
      assert t.reported[..|s.reported|] == t.reported[..|s1.reported|][..|s.reported|];
    }
  }

  /** The phases the scene goes through when only the button and the timers act. */
  datatype Phase = Idle | Shaking | Falling | Shown

  function NextPhase(p: Phase): Phase {
    match p
    case Idle => Shaking
    case Shaking => Falling
    case Falling => Shown
    case Shown => Idle
  }

  /** The phase a state is in, if it is one of the four; None for a state that only a deity
      change in mid-draw can produce. */
  function PhaseOf(s: SceneState): Option<Phase> {
    if !s.isShaking && s.stickState == Hidden && s.btnState == StartButton
       && s.shakeTimers == [] && s.dropTimers == [] then Some(Idle)
    else if s.isShaking && s.stickState == Hidden && s.btnState == DrawingButton
       && |s.shakeTimers| == 1 && s.dropTimers == [] then Some(Shaking)
    else if !s.isShaking && s.stickState == Dropping && s.btnState == DrawingButton
       && s.shakeTimers == [] && |s.dropTimers| == 1 then Some(Falling)
    else if !s.isShaking && s.stickState == Dropping && s.btnState == ResetButton
       && s.shakeTimers == [] && s.dropTimers == [] then Some(Shown)
    else None
  }

  /** The phase that a click or a timer moves a scene to, when it moves it. */
  predicate Advances(p: Phase, e: Event) {
    match p
    case Idle => e == Click
    case Shaking => e == ShakeTimer
    case Falling => e.DropTimer?
    case Shown => e == Click
  }

  /** Button and timers take the scene round Idle, Shaking, Falling, Shown and back, one phase at
      a time: the stick goes hidden then dropping, the button start, drawing, reset, start. A click
      on the disabled 'drawing' button changes nothing, and each timer can fire only in its own
      phase. */
  lemma StepFollowsPhases(s: SceneState, e: Event)
    requires PhaseOf(s).Some? && Enabled(s, e) && !e.NewDeity?
    ensures var p := PhaseOf(s).value;
      if Advances(p, e) then PhaseOf(Step(s, e)) == Some(NextPhase(p))
      else Step(s, e) == s
    ensures e == ShakeTimer ==> PhaseOf(s) == Some(Shaking)
    ensures e.DropTimer? ==> PhaseOf(s) == Some(Falling)
  {
  }

  predicate NoDeityChange(es: seq<Event>) {
    forall i :: 0 <= i < |es| ==> !es[i].NewDeity?
  }

  /** Without a deity change in mid-draw, every state reached from mounting is in one of the four
      phases, so at most one draw is in flight and the button is disabled exactly while one is. */
  lemma {:induction false} RunFollowsPhases(s: SceneState, es: seq<Event>)
    requires PhaseOf(s).Some? && CanRun(s, es) && NoDeityChange(es)
    ensures PhaseOf(Run(s, es)).Some?
    ensures InFlight(Run(s, es)) <= 1
    ensures Run(s, es).btnState == DrawingButton <==> InFlight(Run(s, es)) == 1
    decreases |es|
  {
    if es != [] {
      StepFollowsPhases(s, es[0]);
      assert NoDeityChange(es[1..]) by {
        forall i | 0 <= i < |es[1..]| ensures !es[1..][i].NewDeity? {
          assert es[1..][i] == es[i + 1];
        }
      }
      RunFollowsPhases(Step(s, es[0]), es[1..]);
    }
  }

  /** There is no stale-timer guard: a deity change while the tube shakes offers 'start' again
      while the first callback is still pending, and that callback and the next still run and
      report the entry drawn from the data captured before the change, for any data and any random
      number. */
  lemma DeityChangeKeepsPendingDraw(before: seq<Fortune>, after: seq<Fortune>, r: real)
    requires 0.0 <= r < 1.0
    ensures var s := Run(Initial(before), [Click, NewDeity(after)]);
      && s.data == after && s.btnState == StartButton && |s.shakeTimers| == 1 && PhaseOf(s).None?
      && CanRun(s, [ShakeTimer, DropTimer(r)])
      && Run(s, [ShakeTimer, DropTimer(r)]).reported == [Draw(before, r)]
  {
    var s0 := Initial(before);
    var s1 := Step(s0, Click);
    var s2 := Step(s1, NewDeity(after));
    assert Run(s0, [Click, NewDeity(after)]) == s2 by {
      assert [Click, NewDeity(after)][1..] == [NewDeity(after)];
      assert [NewDeity(after)][1..] == [];
      assert Run(s1, [NewDeity(after)]) == Run(s2, []) == s2;
    }
    var s3 := Step(s2, ShakeTimer);
    var s4 := Step(s3, DropTimer(r));
    assert s3.dropTimers == [before];
    assert [ShakeTimer, DropTimer(r)][1..] == [DropTimer(r)];
    assert [DropTimer(r)][1..] == [];
    assert Run(s3, [DropTimer(r)]) == Run(s4, []) == s4;
    assert Run(s2, [ShakeTimer, DropTimer(r)]) == s4;
  }

  /** The scene as the component holds it. */
  class Scene {
    var data: seq<Fortune>
    var isShaking: bool
    var stickState: StickState
    var btnState: BtnState
    var shakeTimers: seq<seq<Fortune>>
    var dropTimers: seq<seq<Fortune>>
    var reported: seq<Option<Fortune>>

    function State(): SceneState
      reads this
    {
      SceneState(data, isShaking, stickState, btnState, shakeTimers, dropTimers, reported)
    }

    ghost predicate Valid()
      reads this
    {
      OneShakeAtATime(State())
    }

    /** Mounting for a deity; the mount-time effect runs `reset`, which changes nothing here. */
    constructor (deityData: seq<Fortune>)
      ensures Valid() && State() == Initial(deityData)
      ensures State() == AfterReset(Initial(deityData))
    {
      data := deityData;
      isShaking := false;
      stickState := Hidden;
      btnState := StartButton;
      shakeTimers := [];
      dropTimers := [];
      reported := [];
    }

    method StartDrawing()
      requires Valid()
      modifies this
      ensures Valid() && State() == AfterStart(old(State()))
      ensures old(isShaking) ==> unchanged(this)
      ensures !old(isShaking) ==> isShaking && btnState == DrawingButton && stickState == old(stickState)
    {
      if isShaking {
        return;
      }
      isShaking := true;
      btnState := DrawingButton;
      shakeTimers := shakeTimers + [data];
    }

    /** The first callback fires. */
    method OnShakeTimer()
      requires Valid() && shakeTimers != []
      modifies this
      ensures Valid() && State() == AfterShake(old(State()))
      ensures !isShaking && stickState == Dropping && btnState == old(btnState)
    {
      var captured := shakeTimers[0];
      shakeTimers := shakeTimers[1..];
      isShaking := false;
      stickState := Dropping;
      dropTimers := dropTimers + [captured];
    }

    /** The second callback fires; `result` is what `onDrawComplete` receives. */
    method OnDropTimer(r: real) returns (result: Option<Fortune>)
      requires Valid() && dropTimers != [] && 0.0 <= r < 1.0
      modifies this
      ensures Valid() && State() == AfterDrop(old(State()), r)
      ensures result == Draw(old(dropTimers[0]), r)
      ensures |old(dropTimers[0])| > 0 ==> result.Some? && result.value in old(dropTimers[0])
      ensures btnState == ResetButton && reported == old(reported) + [result]
    {
      var captured := dropTimers[0];
      dropTimers := dropTimers[1..];
      var randomIndex := DrawIndex(r, |captured|);
      if randomIndex < |captured| {
        result := Some(captured[randomIndex]);
      } else {
        result := None;
      }
      reported := reported + [result];
      btnState := ResetButton;
    }

    method Reset()
      requires Valid()
      modifies this
      ensures Valid() && State() == AfterReset(old(State()))
      ensures stickState == Hidden && btnState == StartButton
      ensures isShaking == old(isShaking) && shakeTimers == old(shakeTimers) && dropTimers == old(dropTimers)
    {
      stickState := Hidden;
      btnState := StartButton;
    }

    /** The effect on `[deity]`: the new deity is rendered, then `reset` runs. */
    method OnDeityChange(deityData: seq<Fortune>)
      requires Valid()
      modifies this
      ensures Valid() && State() == AfterDeityChange(old(State()), deityData)
    {
      data := deityData;
      Reset();
    }

    /** A click on whichever button is rendered. */
    method ClickButton()
      requires Valid()
      modifies this
      ensures Valid() && State() == AfterClick(old(State()))
    {
      match ButtonActionOf(btnState)
      case None =>
      case Some(StartDrawingAction) => StartDrawing();
      case Some(ResetAction) => Reset();
    }
  }
}
