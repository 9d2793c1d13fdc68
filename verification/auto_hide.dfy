// The timing of panels that slide in from an edge and hide again. Times are whole milliseconds.
module AutoHide {
  import opened Basics

  datatype Phase = Hidden | WaitingToShow | Showing | Shown | WaitingToHide | Hiding
  datatype Activation = Pointer | Keyboard | Programmatic
  datatype Options = Options(pointerShowDelay: int, hideDelay: int, animation: int)

  const MAXIMUM_DURATION := 5000

  predicate ValidOptions(o: Options) {
    && 0 <= o.pointerShowDelay <= MAXIMUM_DURATION && 0 <= o.hideDelay <= MAXIMUM_DURATION
    && 0 <= o.animation <= MAXIMUM_DURATION
  }

  datatype State = State(phase: Phase, panel: Option<nat>, progress: real, pointerInside: bool, focusInside: bool, elapsed: int)

  const RESET := State(Hidden, None, 0.0, false, false, 0)

  predicate KeepsOpen(s: State) { s.pointerInside || s.focusInside }

  function Fraction(elapsed: int, duration: int): (r: real)
    ensures 0.0 <= r <= 1.0
    ensures r == 1.0 <==> duration <= 0 || elapsed >= duration
    ensures duration > 0 && 0 <= elapsed <= duration ==> r * duration as real == elapsed as real
  {
    if duration <= 0 then 1.0
    else
      var r := elapsed as real / duration as real;
      Quotient(elapsed as real, duration as real);
      if r < 0.0 then 0.0 else if r > 1.0 then 1.0 else r
  }

  lemma Quotient(x: real, y: real)
    requires y > 0.0
    ensures (x / y) * y == x && (x / y >= 1.0 <==> x >= y) && (x / y <= 0.0 <==> x <= 0.0)
  {
    var q := x / y;
    assert q * y == x;
    SignOfProduct(q, y);
    SignOfProduct(q - 1.0, y);
    assert (q - 1.0) * y == x - y;
  }

  lemma SignOfProduct(a: real, y: real)
    requires y > 0.0
    ensures (a * y >= 0.0 <==> a >= 0.0) && (a * y <= 0.0 <==> a <= 0.0)
  {
    if a > 0.0 { assert a * y > 0.0; }
    if a < 0.0 { assert a * y < 0.0; }
  }

  // ---- events ----

  datatype Event =
    | ShowRequested(panel: nat, activation: Activation)
    | HideRequested(immediate: bool)
    | PointerChanged(inside: bool)
    | FocusChanged(inside: bool)
    | TimePassed(span: int)
    | WasReset

  function AfterShow(s: State, o: Options, panel: nat, activation: Activation): State {
    if panel == 0 then s
    else
      var t := s.(panel := Some(panel), elapsed := 0);
      if activation != Pointer then t.(phase := Shown, progress := 1.0)
      else if s.panel != Some(panel) || s.phase == Hidden || s.phase == Hiding then
        t.(phase := if o.pointerShowDelay == 0 then Showing else WaitingToShow, progress := 0.0)
      else if s.phase == WaitingToHide then t.(phase := Shown, progress := 1.0)
      else t
  }

  function AfterHide(s: State, o: Options, immediate: bool): State {
    if s.phase == Hidden then s
    else if immediate then RESET
    else if KeepsOpen(s) then s
    else s.(elapsed := 0, phase := if o.hideDelay == 0 then Hiding else WaitingToHide)
  }

  // The common part of the pointer and the focus coming and going.
  function AfterPresence(s: State, o: Options, inside: bool): State {
    if inside && (s.phase == WaitingToHide || s.phase == Hiding) then s.(phase := Shown, progress := 1.0, elapsed := 0)
    else if !inside && !KeepsOpen(s) && s.phase == Shown then AfterHide(s, o, false)
    else s
  }

  // The effect of time passing, however long.
  function Uncapped(s: State, o: Options, span: int): State {
    if span <= 0 || s.phase == Hidden || s.phase == Shown then s
    else
      var t := s.elapsed + span;
      match s.phase
      case WaitingToShow =>
        if t < o.pointerShowDelay then s.(elapsed := t) else Shows(s, o, t - o.pointerShowDelay)
      case Showing => Shows(s, o, t)
      case WaitingToHide =>
        if KeepsOpen(s) then s.(phase := Shown, progress := 1.0, elapsed := 0)
        else if t < o.hideDelay then s.(elapsed := t)
        else Hides(s, o, t - o.hideDelay)
      case _ => Hides(s, o, t)
  }

  // The part of a tick that counts: a stall longer than the maximum is cut off.
  function Counted(span: int): int {
    if span <= 0 then 0 else if span < MAXIMUM_DURATION then span else MAXIMUM_DURATION
  }

  function AfterAdvance(s: State, o: Options, span: int): State { Uncapped(s, o, Counted(span)) }

  function Shows(s: State, o: Options, t: int): State {
    var progress := Fraction(t, o.animation);
    if progress >= 1.0 then s.(phase := Shown, progress := progress, elapsed := 0)
    else s.(phase := Showing, progress := progress, elapsed := t)
  }

  function Hides(s: State, o: Options, t: int): State {
    var progress := 1.0 - Fraction(t, o.animation);
    if progress <= 0.0 then RESET else s.(phase := Hiding, progress := progress, elapsed := t)
  }

  function After(s: State, o: Options, e: Event): State {
    match e
    case ShowRequested(panel, activation) => AfterShow(s, o, panel, activation)
    case HideRequested(immediate) => AfterHide(s, o, immediate)
    case PointerChanged(inside) => AfterPresence(s.(pointerInside := inside), o, inside)
    case FocusChanged(inside) => AfterPresence(s.(focusInside := inside), o, inside)
    case TimePassed(span) => AfterAdvance(s, o, span)
    case WasReset => RESET
  }

  function Run(o: Options, events: seq<Event>): State {
    if events == [] then RESET else After(Run(o, events[..|events| - 1]), o, events[|events| - 1])
  }

  // ---- what holds in every reachable state ----

  predicate Sound(s: State, o: Options) {
    && (s.phase == WaitingToHide || s.phase == Hiding ==> !KeepsOpen(s))
    && (s.phase == Hidden <==> s.panel.None?)
    && (s.panel.Some? ==> s.panel.value != 0)
    && 0.0 <= s.progress <= 1.0
    && (s.phase == Hidden || s.phase == WaitingToShow ==> s.progress == 0.0)
    && (s.phase == Shown ==> s.progress == 1.0)
    && s.elapsed >= 0
    && (s.phase == Hidden || s.phase == Shown ==> s.elapsed == 0)
    && (s.phase == WaitingToShow ==> s.elapsed < o.pointerShowDelay)
    && (s.phase == WaitingToHide ==> s.elapsed < o.hideDelay)
    && (s.phase == Showing || s.phase == Hiding ==> s.elapsed == 0 || s.elapsed < o.animation)
  }

  lemma EventKeepsSound(s: State, o: Options, e: Event)
    requires ValidOptions(o) && Sound(s, o)
    ensures Sound(After(s, o, e), o)
  {
    hide Fraction;
  }

  // After any events: a panel on its way out has neither the pointer nor the focus in it, waiting never outlasts its
  // delay, and the progress agrees with the phase.
  lemma {:induction false} RunIsSound(o: Options, events: seq<Event>)
    requires ValidOptions(o)
    ensures Sound(Run(o, events), o)
  {
    hide Sound, After;
    if events == [] {
      ResetIsSound(o);
    } else {
      RunIsSound(o, events[..|events| - 1]);
      EventKeepsSound(Run(o, events[..|events| - 1]), o, events[|events| - 1]);
    }
  }

  lemma ResetIsSound(o: Options)
    ensures Sound(RESET, o)
  {}

  // Advancing without the branch for a panel that is waiting to hide but kept open.
  function AdvanceWithoutBranch(s: State, o: Options, span: int): State {
    if span <= 0 || s.phase == Hidden || s.phase == Shown then s
    else
      var t := s.elapsed + Counted(span);
      match s.phase
      case WaitingToShow => if t < o.pointerShowDelay then s.(elapsed := t) else Shows(s, o, t - o.pointerShowDelay)
      case Showing => Shows(s, o, t)
      case WaitingToHide => if t < o.hideDelay then s.(elapsed := t) else Hides(s, o, t - o.hideDelay)
      case _ => Hides(s, o, t)
  }

  // That branch is never taken.
  lemma BranchIsDead(o: Options, events: seq<Event>, span: int)
    requires ValidOptions(o)
    ensures AfterAdvance(Run(o, events), o, span) == AdvanceWithoutBranch(Run(o, events), o, span)
  {
    hide Run, Shows, Hides;
    RunIsSound(o, events);
  }

  // ---- time adds up ----

  function Total(ticks: seq<int>): (t: int)
    ensures t >= 0
  {
    if ticks == [] then 0 else Counted(ticks[0]) + Total(ticks[1..])
  }

  function AdvanceEach(s: State, o: Options, ticks: seq<int>): State
    decreases |ticks|
  {
    if ticks == [] then s else AdvanceEach(AfterAdvance(s, o, ticks[0]), o, ticks[1..])
  }

  lemma TwoSpans(s: State, o: Options, a: int, b: int)
    requires a >= 0 && b >= 0
    ensures Uncapped(Uncapped(s, o, a), o, b) == Uncapped(s, o, a + b)
  {
    hide Shows, Hides;
    var later := s.(elapsed := s.elapsed + a);
    forall t ensures Uncapped(Shows(s, o, t), o, b) == Shows(s, o, t + b) { ShowsOn(s, o, t, b); }
    forall t ensures Uncapped(Hides(s, o, t), o, b) == Hides(s, o, t + b) { HidesOn(s, o, t, b); }
    forall t ensures Shows(later, o, t) == Shows(s, o, t) && Hides(later, o, t) == Hides(s, o, t) { StartAnywhere(s, o, t, later.elapsed); }
  }

  lemma StartAnywhere(s: State, o: Options, t: int, elapsed: int)
    ensures Shows(s.(elapsed := elapsed), o, t) == Shows(s, o, t) && Hides(s.(elapsed := elapsed), o, t) == Hides(s, o, t)
  {}

  lemma ShowsOn(s: State, o: Options, t: int, b: int)
    requires b >= 0
    ensures Uncapped(Shows(s, o, t), o, b) == Shows(s, o, t + b)
  {
    hide Hides;
  }

  lemma HidesOn(s: State, o: Options, t: int, b: int)
    requires b >= 0
    ensures Uncapped(Hides(s, o, t), o, b) == Hides(s, o, t + b)
  {
    hide Shows;
  }

  // Any ticks whatever have the effect of one span of time: the sum of what each of them counts for.
  lemma {:induction false} TicksAddUp(s: State, o: Options, ticks: seq<int>)
    ensures AdvanceEach(s, o, ticks) == Uncapped(s, o, Total(ticks))
    decreases |ticks|
  {
    hide Uncapped, Counted;
    if ticks == [] {
      NoTime(s, o);
    } else {
      TicksAddUp(AfterAdvance(s, o, ticks[0]), o, ticks[1..]);
      CountedNotNegative(ticks[0]);
      TwoSpans(s, o, Counted(ticks[0]), Total(ticks[1..]));
    }
  }

  lemma NoTime(s: State, o: Options)
    ensures Uncapped(s, o, 0) == s
  {}

  lemma CountedNotNegative(span: int)
    ensures Counted(span) >= 0
  {}

  function Sum(ticks: seq<int>): int {
    if ticks == [] then 0 else ticks[0] + Sum(ticks[1..])
  }

  predicate Short(ticks: seq<int>) { forall i :: 0 <= i < |ticks| ==> 0 < ticks[i] <= MAXIMUM_DURATION }

  lemma {:induction false} TotalOfShort(ticks: seq<int>)
    requires Short(ticks)
    ensures Total(ticks) == Sum(ticks)
  {
    if ticks == [] {
    } else {
      TotalOfShort(ticks[1..]);
    }
  }

  // No time is lost in ticks of up to the maximum, whatever they add up to; and if they add up to no more than the
  // maximum, they have the effect of one tick.
  lemma ShortTicksAddUp(s: State, o: Options, ticks: seq<int>)
    requires Short(ticks)
    ensures AdvanceEach(s, o, ticks) == Uncapped(s, o, Sum(ticks))
    ensures Sum(ticks) <= MAXIMUM_DURATION ==> AdvanceEach(s, o, ticks) == AfterAdvance(s, o, Sum(ticks))
  {
    hide Uncapped;
    TicksAddUp(s, o, ticks);
    TotalOfShort(ticks);
  }

  // A tick counts in full, in every state that can be reached, exactly when it is no longer than the maximum.
  lemma LongestTick(a: int)
    ensures a <= MAXIMUM_DURATION <==>
            forall o, events :: ValidOptions(o) ==> AfterAdvance(Run(o, events), o, a) == Uncapped(Run(o, events), o, a)
  {
    if a > MAXIMUM_DURATION {
      LongTickDiffers(a);
    } else {
      forall o, events | ValidOptions(o) ensures AfterAdvance(Run(o, events), o, a) == Uncapped(Run(o, events), o, a) {}
    }
  }

  // A stall in the middle of the longest wait: the part of it that is cut off is missing from the animation.
  lemma LongTickDiffers(a: int)
    requires a > MAXIMUM_DURATION
    ensures var o := Options(MAXIMUM_DURATION, 0, 10);
            var s := Run(o, [ShowRequested(1, Pointer)]);
            AfterAdvance(s, o, a).progress == 0.0 && Uncapped(s, o, a).progress > 0.0
  {
    var o := Options(MAXIMUM_DURATION, 0, 10);
    var events := [ShowRequested(1, Pointer)];
    assert events[..0] == [];
    assert Run(o, events) == AfterShow(RESET, o, 1, Pointer);
  }

  // Left alone, a panel that waits to hide or is hiding is gone once what is left of its delay and the animation have
  // passed, and not before.
  lemma HidesInTime(s: State, o: Options, ticks: seq<int>)
    requires ValidOptions(o) && s.phase in {WaitingToHide, Hiding} && Sound(s, o)
    ensures var needed := (if s.phase == WaitingToHide then o.hideDelay else 0) + o.animation;
            AdvanceEach(s, o, ticks).phase == Hidden <==> Total(ticks) > 0 && s.elapsed + Total(ticks) >= needed
  {
    TicksAddUp(s, o, ticks);
  }

  // A panel that waits to be shown or is showing is there once what is left of its delay and the animation have passed,
  // and not before.
  lemma ShowsInTime(s: State, o: Options, ticks: seq<int>)
    requires ValidOptions(o) && s.phase in {WaitingToShow, Showing} && Sound(s, o)
    ensures var needed := (if s.phase == WaitingToShow then o.pointerShowDelay else 0) + o.animation;
            AdvanceEach(s, o, ticks).phase == Shown <==> Total(ticks) > 0 && s.elapsed + Total(ticks) >= needed
  {
    TicksAddUp(s, o, ticks);
  }

  // ---- the controller ----

  class DockAutoHideController {
    const options: Options
    var state: State

    ghost predicate Valid()
      reads this
    {
      ValidOptions(options) && Sound(state, options)
    }

    constructor (o: Options)
      requires ValidOptions(o)
      ensures Valid() && options == o && state == RESET
    {
      options, state := o, RESET;
    }

    method RequestShow(panel: nat, activation: Activation) returns (ok: bool)
      requires Valid()
      modifies this
      ensures Valid() && state == After(old(state), options, ShowRequested(panel, activation)) && (ok <==> panel != 0)
    {
      EventKeepsSound(state, options, ShowRequested(panel, activation));
      if panel == 0 { return false; }
      var switching := state.panel != Some(panel);
      state := state.(panel := Some(panel), elapsed := 0);
      if activation == Keyboard || activation == Programmatic {
        state := state.(phase := Shown, progress := 1.0);
      } else if switching || state.phase == Hidden || state.phase == Hiding {
        state := state.(phase := if options.pointerShowDelay == 0 then Showing else WaitingToShow, progress := 0.0);
      } else if state.phase == WaitingToHide {
        state := state.(phase := Shown, progress := 1.0);
      }
      ok := true;
    }

    method RequestHide(immediate: bool)
      requires ValidOptions(options)
      modifies this
      ensures state == AfterHide(old(state), options, immediate)
      ensures old(Valid()) ==> Valid()
    {
      if Sound(state, options) { EventKeepsSound(state, options, HideRequested(immediate)); }
      if state.phase == Hidden { return; }
      if immediate {
        state := RESET;
        return;
      }
      if KeepsOpen(state) { return; }
      state := state.(elapsed := 0);
      state := state.(phase := if options.hideDelay == 0 then Hiding else WaitingToHide);
    }

    method SetPointerInside(inside: bool)
      requires Valid()
      modifies this
      ensures Valid() && state == After(old(state), options, PointerChanged(inside))
    {
      EventKeepsSound(state, options, PointerChanged(inside));
      state := state.(pointerInside := inside);
      if inside && (state.phase == WaitingToHide || state.phase == Hiding) {
        state := state.(phase := Shown, progress := 1.0, elapsed := 0);
      } else if !inside && !KeepsOpen(state) && state.phase == Shown {
        RequestHide(false);
      }
    }

    method SetKeyboardFocusInside(inside: bool)
      requires Valid()
      modifies this
      ensures Valid() && state == After(old(state), options, FocusChanged(inside))
    {
      EventKeepsSound(state, options, FocusChanged(inside));
      state := state.(focusInside := inside);
      if inside && (state.phase == WaitingToHide || state.phase == Hiding) {
        state := state.(phase := Shown, progress := 1.0, elapsed := 0);
      } else if !inside && !KeepsOpen(state) && state.phase == Shown {
        RequestHide(false);
      }
    }

    method Advance(span: int)
      requires Valid()
      modifies this
      ensures Valid() && state == After(old(state), options, TimePassed(span))
    {
      hide Sound;
      EventKeepsSound(state, options, TimePassed(span));
      if span <= 0 || state.phase == Hidden || state.phase == Shown { return; }
      var elapsed := if span < MAXIMUM_DURATION then span else MAXIMUM_DURATION;
      state := state.(elapsed := state.elapsed + elapsed);
      if state.phase == WaitingToShow {
        if state.elapsed < options.pointerShowDelay { return; }
        state := state.(elapsed := state.elapsed - options.pointerShowDelay, phase := Showing);
      }
      if state.phase == Showing {
        state := state.(progress := Fraction(state.elapsed, options.animation));
        if state.progress >= 1.0 { state := state.(phase := Shown, elapsed := 0); }
        return;
      }
      if state.phase == WaitingToHide {
        if KeepsOpen(state) {
          state := state.(phase := Shown, progress := 1.0, elapsed := 0);
          return;
        }
        if state.elapsed < options.hideDelay { return; }
        state := state.(elapsed := state.elapsed - options.hideDelay, phase := Hiding);
      }
      if state.phase == Hiding {
        state := state.(progress := 1.0 - Fraction(state.elapsed, options.animation));
        if state.progress <= 0.0 { state := RESET; }
      }
    }
  }
}
