// The input aggregator: four logical buttons, each remembering whether it is
// held and how many press/release edges it has seen since the last flush.

module Input {

  /** transitionCount is a uint8. */
  const TransitionLimit := 255

  /** Reference count of presses: the number of released-to-held edges among
      `n` alternating edges that start from the state `startDown`. */
  function PressEdges(startDown: bool, n: nat): nat
    decreases n
  {
    if n == 0 then 0 else (if startDown then 0 else 1) + PressEdges(!startDown, n - 1)
  }

  /** The state a button had before its last `n` edges, given its state now. */
  function StateBefore(isDown: bool, n: nat): bool {
    if n % 2 == 0 then isDown else !isDown
  }

  /** GetInputButtonDownCount.  The source halves with ceilf/floorf on a
      float; on the odd counts it sees the result is (n + 1) / 2 and n / 2. */
  function DownCount(isDown: bool, transitionCount: nat): (count: nat)
    ensures transitionCount == 0 ==> count == (if isDown then 1 else 0)
    ensures count <= transitionCount / 2 + 1
  {
    if transitionCount != 0 then
      if transitionCount % 2 == 0 then transitionCount / 2
      else if isDown then (transitionCount + 1) / 2
      else transitionCount / 2
    else if isDown then 1
    else 0
  }

  /** WasInputButtonPressedOnce. */
  predicate PressedOnce(isDown: bool, transitionCount: nat) {
    (isDown && transitionCount == 1) || (!isDown && transitionCount > 1)
  }

  lemma {:induction false} PressEdgesClosedForm(startDown: bool, n: nat)
    ensures PressEdges(startDown, n) == if startDown then n / 2 else (n + 1) / 2
    decreases n
  {
    if n > 0 {
      PressEdgesClosedForm(!startDown, n - 1);
    }
  }

  /** With at least one edge in the window, DownCount is the number of presses
      the edges contain; with none, it is 1 exactly when the button is held. */
  lemma DownCountCountsPresses(isDown: bool, n: nat)
    ensures n > 0 ==> DownCount(isDown, n) == PressEdges(StateBefore(isDown, n), n)
    ensures n == 0 ==> DownCount(isDown, n) == (if isDown then 1 else 0)
  {
    PressEdgesClosedForm(StateBefore(isDown, n), n);
  }

  /** PressedOnce implies that the window really contains a press, and is
      false for an idle window. */
  lemma PressedOnceHasPress(isDown: bool, n: nat)
    ensures PressedOnce(isDown, n) ==> n > 0 && PressEdges(StateBefore(isDown, n), n) >= 1
    ensures n == 0 ==> !PressedOnce(isDown, n)
  {
    PressEdgesClosedForm(StateBefore(isDown, n), n);
  }

  /** The four logical buttons of `game_input_t`. */
  datatype ButtonId = LeftButton | RightButton | DownButton | RotateButton

  /** The value of one button: held or not, and its edge count. */
  datatype ButtonState = ButtonState(isDown: bool, transitionCount: nat)

  /** SetInputButtonDown on a value: a new state adds one edge; the same
      state adds none.  Either way the state at the start of the window is
      the one it was. */
  function Edge(b: ButtonState, down: bool): (r: ButtonState)
    ensures r.isDown == down
    ensures StateBefore(r.isDown, r.transitionCount) == StateBefore(b.isDown, b.transitionCount)
    ensures r == b <==> b.isDown == down
    ensures r != b ==> r.transitionCount == b.transitionCount + 1
  {
    if b.isDown != down then ButtonState(down, b.transitionCount + 1) else b
  }

  /** Repeating the same report adds no edge. */
  lemma EdgeIdempotent(b: ButtonState, down: bool)
    ensures Edge(Edge(b, down), down) == Edge(b, down)
  {
  }

  /** A press and a release inside one flushed window read as one press. */
  lemma TapIsOnePress(b: ButtonState)
    requires b.transitionCount == 0 && !b.isDown
    ensures var t := Edge(Edge(b, true), false);
      PressedOnce(t.isDown, t.transitionCount) && DownCount(t.isDown, t.transitionCount) == 1
  {
  }

  /** The value of all four buttons. */
  datatype InputState = InputState(left: ButtonState, right: ButtonState, down: ButtonState, rotate: ButtonState) {
    function At(id: ButtonId): ButtonState {
      match id
      case LeftButton => left
      case RightButton => right
      case DownButton => down
      case RotateButton => rotate
    }

    function With(id: ButtonId, b: ButtonState): (r: InputState)
      ensures r.At(id) == b
      ensures forall other :: other != id ==> r.At(other) == At(other)
    {
      match id
      case LeftButton => this.(left := b)
      case RightButton => this.(right := b)
      case DownButton => this.(down := b)
      case RotateButton => this.(rotate := b)
    }
  }

  /** FlushInput on a value: every edge count back to 0, every held state kept. */
  function Flushed(s: InputState): (r: InputState)
    ensures forall id :: r.At(id).transitionCount == 0 && r.At(id).isDown == s.At(id).isDown
  {
    InputState(ButtonState(s.left.isDown, 0), ButtonState(s.right.isDown, 0),
      ButtonState(s.down.isDown, 0), ButtonState(s.rotate.isDown, 0))
  }

  /** After a flush no button reads as pressed once, each reads as held once
      or not at all, and flushing again changes nothing. */
  lemma FlushedIsIdle(s: InputState, id: ButtonId)
    ensures !PressedOnce(Flushed(s).At(id).isDown, Flushed(s).At(id).transitionCount)
    ensures DownCount(Flushed(s).At(id).isDown, Flushed(s).At(id).transitionCount) == if s.At(id).isDown then 1 else 0
    ensures Flushed(Flushed(s)) == Flushed(s)
  {
  }

  /** A button: `game_input_button_t`.  The ghost `windowStart` is the state
      it had when its edges were last flushed. */
  class Button {
    var isDown: bool
    var transitionCount: nat
    ghost var windowStart: bool

    ghost predicate Valid()
      reads this
    {
      StateBefore(isDown, transitionCount) == windowStart
    }

    constructor ()
      ensures Valid() && !isDown && transitionCount == 0
    {
      isDown, transitionCount := false, 0;
      windowStart := false;
    }

    function State(): ButtonState
      reads this
    {
      ButtonState(isDown, transitionCount)
    }

    /** SetInputButtonDown: an edge is counted only when the state changes. */
    method SetDown(down: bool)
      requires Valid() && transitionCount < TransitionLimit
      modifies this
      ensures Valid() && windowStart == old(windowStart)
      ensures State() == Edge(old(State()), down)
    {
      if isDown != down {
        isDown := down;
        transitionCount := transitionCount + 1;
      }
    }
  }

  /** `game_input_t`: the four logical buttons (the gamepad id only picks a
      device for rumble and is not modelled). */
  class GameInput {
    const left: Button
    const right: Button
    const down: Button
    const rotate: Button

    ghost function Repr(): set<object> {
      {left, right, down, rotate}
    }

    ghost predicate Valid()
      reads Repr()
    {
      && left != right && left != down && left != rotate
      && right != down && right != rotate && down != rotate
      && left.Valid() && right.Valid() && down.Valid() && rotate.Valid()
    }

    function Get(id: ButtonId): (b: Button)
      ensures b in Repr()
    {
      match id
      case LeftButton => left
      case RightButton => right
      case DownButton => down
      case RotateButton => rotate
    }

    function State(): (s: InputState)
      reads Repr()
      ensures forall id :: s.At(id) == Get(id).State()
    {
      InputState(left.State(), right.State(), down.State(), rotate.State())
    }

    /** Every button can take one more edge without its uint8 counter wrapping. */
    predicate HasHeadroom()
      reads Repr()
    {
      && left.transitionCount < TransitionLimit && right.transitionCount < TransitionLimit
      && down.transitionCount < TransitionLimit && rotate.transitionCount < TransitionLimit
    }

    constructor ()
      ensures Valid() && fresh(Repr())
      ensures !left.isDown && !right.isDown && !down.isDown && !rotate.isDown
      ensures left.transitionCount == 0 && right.transitionCount == 0
      ensures down.transitionCount == 0 && rotate.transitionCount == 0
    {
      left := new Button();
      right := new Button();
      down := new Button();
      rotate := new Button();
    }

    /** SetInputButtonDown on one of the four buttons; the others keep
        their state. */
    method SetButtonDown(id: ButtonId, isDown: bool)
      requires Valid() && Get(id).transitionCount < TransitionLimit
      modifies Get(id)
      ensures Valid()
      ensures State() == old(State()).With(id, Edge(old(State()).At(id), isDown))
    {
      Get(id).SetDown(isDown);
    }

    /** FlushInput: ends the resolution window. */
    method Flush()
      requires Valid()
      modifies Repr()
      ensures Valid()
      ensures State() == Flushed(old(State()))
    {
      left.transitionCount := 0;
      right.transitionCount := 0;
      down.transitionCount := 0;
      rotate.transitionCount := 0;
      left.windowStart := left.isDown;
      right.windowStart := right.isDown;
      down.windowStart := down.isDown;
      rotate.windowStart := rotate.isDown;
    }
  }
}
