/**
  The input state machine of src/event_handlers/event_handler.cpp: the finger counter, the
  tap and double-tap recogniser with its pending click, the left-button drag origin, the
  quit and Escape exits, the `m` key that switches handlers, and the angle distance helper.
  The camera, the game log and the global timer are outside this model: the calls made to
  them are recorded, in order, in `calls`. The clock of the double-tap recogniser is a
  timestamp, `clickBegin`, and every operation receives the current time in milliseconds.
 */
module Events {

  /** DOUBLECLICK_MS: the longest a tap, or a pair of taps, may last. */
  const DOUBLECLICK_MS: int := 300
  /** `_nbFingers` is a size_t: it counts modulo 2^64. */
  const SIZE_T_MOD: nat := 0x1_0000_0000_0000_0000

  /** A finger position in window pixels, as the float product tfinger * window size. */
  type Pos = (real, real)
  /** An integer pixel: the type of the stored touch-down point, drag origin and pending click. */
  type Pixel = (int, int)

  datatype Key = Escape | KeyL | KeyM | KeyP | OtherKey
  datatype Button = ButtonLeft | OtherButton

  /** The SDL events the handler distinguishes. Finger positions are already scaled to window
      pixels (the source multiplies `tfinger` by the window size) and keep their fraction. */
  datatype Event =
    | Quit
    | WindowResized(w: int, h: int)
    | OtherWindowEvent
    | FingerDown(at: Pos)
    | FingerUp(at: Pos)
    | KeyDown(key: Key)
    | MouseButtonDown(button: Button, x: int, y: int)
    | MouseButtonUp(button: Button, x: int, y: int)
    | OtherEvent

  datatype HandlerType = HdlrGame | HdlrSandbox

  /** The user events pushed onto the SDL queue, with the pending click as payload. */
  datatype UserEvent = FingerClick(at: Pixel) | FingerDoubleClick(at: Pixel)

  /** Calls into the camera, the game and the global clock. */
  datatype Call = CameraResize(w: int, h: int) | SwitchLog | ToggleGlobalTimer

  /** Everything the handler keeps between events, plus what it has pushed and called. */
  datatype Input = Input(nbFingers: nat, beginDragTouch: Pixel, beginDragLeft: Pixel,
                         pendingClick: Pixel, clickBegin: int,
                         pushed: seq<UserEvent>, calls: seq<Call>)

  /** `++_nbFingers` on a size_t. */
  function Inc(n: nat): (r: nat)
    ensures r < SIZE_T_MOD && r == (n + 1) % SIZE_T_MOD
  {
    (n + 1) % SIZE_T_MOD
  }

  /** `--_nbFingers` on a size_t: 0 wraps round to 2^64 - 1, and the count is one less
      modulo 2^64. */
  function Dec(n: nat): (r: nat)
    ensures r < SIZE_T_MOD && (r + 1) % SIZE_T_MOD == n % SIZE_T_MOD
    ensures n % SIZE_T_MOD == 0 ==> r == SIZE_T_MOD - 1
  {
    var k := n % SIZE_T_MOD;
    assert (n + SIZE_T_MOD - 1) % SIZE_T_MOD == if k == 0 then SIZE_T_MOD - 1 else k - 1 by {
      assert n == (n / SIZE_T_MOD) * SIZE_T_MOD + k;
      assert n + SIZE_T_MOD - 1 == (n / SIZE_T_MOD) * SIZE_T_MOD + (k + SIZE_T_MOD - 1);
    }
    (n + SIZE_T_MOD - 1) % SIZE_T_MOD
  }

  function Toggle(h: HandlerType): HandlerType {
    if h == HdlrGame then HdlrSandbox else HdlrGame
  }

  function Sq(a: real): real {
    a * a
  }

  /** The float-to-int conversion of an assignment to an integer field: the fraction is
      dropped, rounding toward zero. */
  function Trunc(x: real): (r: int)
    ensures Abs(x - r as real) < 1.0
    ensures 0.0 <= x ==> r as real <= x
    ensures x <= 0.0 ==> x <= r as real
  {
    if 0.0 <= x then x.Floor else -((-x).Floor)
  }

  /** A finger position stored in an integer point. */
  function ToPixel(p: Pos): (r: Pixel)
    ensures Abs(p.0 - r.0 as real) < 1.0 && Abs(p.1 - r.1 as real) < 1.0
  {
    (Trunc(p.0), Trunc(p.1))
  }

  /** glm::length(glm::vec2(a) - b) < maxDist, without the square root: a length is never
      negative, so the test fails for every pair when maxDist <= 0. */
  predicate Near(a: Pixel, b: Pos, maxDist: real) {
    0.0 < maxDist && Sq(a.0 as real - b.0) + Sq(a.1 as real - b.1) < maxDist * maxDist
  }

  /** The test of a finger-up that ends a tap: the last finger is lifted, within
      DOUBLECLICK_MS of the clock's restart, near the touch-down point. */
  predicate TapEnds(s: Input, p: Pos, now: int, maxDist: real) {
    Dec(s.nbFingers) == 0 && now - s.clickBegin < DOUBLECLICK_MS && Near(s.beginDragTouch, p, maxDist)
  }

  /** handleEvent on the value of the state: the new state, whether the program keeps running
      and the new current handler. `outside` is DEFAULT_OUTSIDE_WINDOW_COORD, the "no point"
      sentinel, and `maxDist` is MAX_DIST_FOR_CLICK. Each field of the state is accounted for
      by the clauses below. */
  function Handle(s: Input, e: Event, h: HandlerType, now: int, outside: Pixel, maxDist: real): (r: (Input, bool, HandlerType))
    // the running flag and the handler
    ensures !r.1 <==> e == Quit || e == KeyDown(Escape)
    ensures r.2 == h <==> e != KeyDown(KeyM)
    // the finger count
    ensures e.FingerDown? ==> r.0.nbFingers == (s.nbFingers + 1) % SIZE_T_MOD
    ensures e.FingerUp? ==> (r.0.nbFingers + 1) % SIZE_T_MOD == s.nbFingers % SIZE_T_MOD
    ensures !e.FingerDown? && !e.FingerUp? ==> r.0.nbFingers == s.nbFingers
    // the touch-down point and the double-click clock: restarted only by a first finger
    // with nothing pending, and then at the touch point truncated to integer pixels
    ensures e.FingerDown? && r.0.nbFingers == 1 && s.pendingClick == outside ==>
      r.0.beginDragTouch == ToPixel(e.at) && r.0.clickBegin == now
    ensures !(e.FingerDown? && r.0.nbFingers == 1 && s.pendingClick == outside) ==>
      r.0.beginDragTouch == s.beginDragTouch && r.0.clickBegin == s.clickBegin
    // the pending click and the pushed events
    ensures r.0.pushed == s.pushed ||
      (e.FingerUp? && r.0.pushed == s.pushed + [FingerDoubleClick(s.pendingClick)] &&
       s.pendingClick != outside && r.0.pendingClick == outside)
    ensures r.0.pendingClick != s.pendingClick ==> e.FingerUp? && TapEnds(s, e.at, now, maxDist)
    ensures s.pendingClick == outside && r.0.pendingClick != outside ==>
      e.FingerUp? && r.0.pendingClick == s.beginDragTouch && r.0.nbFingers == 0 &&
      now - s.clickBegin < DOUBLECLICK_MS && Near(s.beginDragTouch, e.at, maxDist)
    ensures e.FingerUp? && TapEnds(s, e.at, now, maxDist) && s.pendingClick == outside ==>
      r.0.pendingClick == s.beginDragTouch && r.0.pushed == s.pushed
    ensures e.FingerUp? && TapEnds(s, e.at, now, maxDist) && s.pendingClick != outside ==>
      (r.0.pushed != s.pushed <==> Near(s.pendingClick, e.at, maxDist))
    ensures s.pendingClick != outside && r.0.pendingClick != s.pendingClick ==>
      r.0.pendingClick == outside && r.0.pushed == s.pushed + [FingerDoubleClick(s.pendingClick)] &&
      Near(s.pendingClick, e.at, maxDist)
    // the left drag origin
    ensures e.MouseButtonDown? ==> r.0.beginDragLeft == if e.button == ButtonLeft then (e.x, e.y) else s.beginDragLeft
    ensures e.MouseButtonUp? ==> r.0.beginDragLeft == if e.button == ButtonLeft then outside else s.beginDragLeft
    ensures !e.MouseButtonDown? && !e.MouseButtonUp? ==> r.0.beginDragLeft == s.beginDragLeft
    // the calls into the camera, the game and the clock
    ensures e.WindowResized? ==> r.0.calls == s.calls + [CameraResize(e.w, e.h)]
    ensures e == KeyDown(KeyL) ==> r.0.calls == s.calls + [SwitchLog]
    ensures e == KeyDown(KeyP) ==> r.0.calls == s.calls + [ToggleGlobalTimer]
    ensures !e.WindowResized? && e != KeyDown(KeyL) && e != KeyDown(KeyP) ==> r.0.calls == s.calls
  {
    match e
    case Quit => (s, false, h)
    case WindowResized(w, hh) => (s.(calls := s.calls + [CameraResize(w, hh)]), true, h)
    case OtherWindowEvent => (s, true, h)
    case FingerDown(p) =>
      var n := Inc(s.nbFingers);
      if n == 1 && s.pendingClick == outside then
        (s.(nbFingers := n, beginDragTouch := ToPixel(p), clickBegin := now), true, h)
      else
        (s.(nbFingers := n), true, h)
    case FingerUp(p) =>
      var n := Dec(s.nbFingers);
      var s1 := s.(nbFingers := n);
      if n == 0 && now - s.clickBegin < DOUBLECLICK_MS && Near(s.beginDragTouch, p, maxDist) then
        if s.pendingClick == outside then
          (s1.(pendingClick := s.beginDragTouch), true, h)
        else if Near(s.pendingClick, p, maxDist) then
          (s1.(pushed := s.pushed + [FingerDoubleClick(s.pendingClick)], pendingClick := outside), true, h)
        else
          (s1, true, h)
      else
        (s1, true, h)
    case KeyDown(k) =>
      if k == Escape then (s, false, h)
      else if k == KeyL then (s.(calls := s.calls + [SwitchLog]), true, h)
      else if k == KeyM then (s, true, Toggle(h))
      else if k == KeyP then (s.(calls := s.calls + [ToggleGlobalTimer]), true, h)
      else (s, true, h)
    case MouseButtonDown(b, x, y) =>
      if b == ButtonLeft then (s.(beginDragLeft := (x, y)), true, h) else (s, true, h)
    case MouseButtonUp(b, _, _) =>
      if b == ButtonLeft then (s.(beginDragLeft := outside), true, h) else (s, true, h)
    case OtherEvent => (s, true, h)
  }

  /** onGoingEvents on the value of the state: a pending click older than DOUBLECLICK_MS
      becomes a single click. */
  function OnGoing(s: Input, now: int, outside: Pixel): (r: Input)
    ensures r == s || (s.pendingClick != outside && r.pendingClick == outside)
    ensures r != s <==> s.pendingClick != outside && now - s.clickBegin > DOUBLECLICK_MS
    ensures r.pushed == s.pushed || r.pushed == s.pushed + [FingerClick(s.pendingClick)]
    ensures r.(pushed := s.pushed, pendingClick := s.pendingClick) == s
  {
    if s.pendingClick != outside && now - s.clickBegin > DOUBLECLICK_MS then
      s.(pushed := s.pushed + [FingerClick(s.pendingClick)], pendingClick := outside)
    else
      s
  }

  /** Pressing `m` twice gives the handler back. */
  lemma ToggleTwice(s: Input, h: HandlerType, t1: int, t2: int, outside: Pixel, maxDist: real)
    ensures var r1 := Handle(s, KeyDown(KeyM), h, t1, outside, maxDist);
      var r2 := Handle(r1.0, KeyDown(KeyM), r1.2, t2, outside, maxDist);
      r2.0 == s && r2.2 == h
  {
  }

  /** A finger put down and lifted again leaves the finger count as it was (modulo 2^64). */
  lemma FingerCountRestored(s: Input, p: Pos, q: Pos, t1: int, t2: int, h: HandlerType, outside: Pixel, maxDist: real)
    requires s.nbFingers < SIZE_T_MOD
    ensures var r1 := Handle(s, FingerDown(p), h, t1, outside, maxDist);
      Handle(r1.0, FingerUp(q), h, t2, outside, maxDist).0.nbFingers == s.nbFingers
  {
  }

  /** A quick, short tap with nothing pending makes its touch-down point, in integer pixels,
      the pending click and pushes nothing. */
  lemma SingleTap(s: Input, p: Pos, q: Pos, t1: int, t2: int, h: HandlerType, outside: Pixel, maxDist: real)
    requires s.nbFingers == 0 && s.pendingClick == outside
    requires t2 - t1 < DOUBLECLICK_MS && Near(ToPixel(p), q, maxDist)
    ensures var r1 := Handle(s, FingerDown(p), h, t1, outside, maxDist);
      var r2 := Handle(r1.0, FingerUp(q), h, t2, outside, maxDist);
      r2.0.pendingClick == ToPixel(p) && r2.0.pushed == s.pushed && r2.0.clickBegin == t1 && r2.0.nbFingers == 0
  {
  }

  /** Two taps with nothing pending, both near the first touch-down point and all within
      DOUBLECLICK_MS of it, push exactly one double click carrying that point and clear the
      pending click. The second touch-down neither moves the drag origin nor restarts the
      clock. */
  lemma DoubleTap(s: Input, p1: Pos, q1: Pos, p2: Pos, q2: Pos, t1: int, t2: int, t3: int, t4: int,
                  h: HandlerType, outside: Pixel, maxDist: real)
    requires s.nbFingers == 0 && s.pendingClick == outside && ToPixel(p1) != outside
    requires t2 - t1 < DOUBLECLICK_MS && t4 - t1 < DOUBLECLICK_MS
    requires Near(ToPixel(p1), q1, maxDist) && Near(ToPixel(p1), q2, maxDist)
    ensures var r1 := Handle(s, FingerDown(p1), h, t1, outside, maxDist);
      var r2 := Handle(r1.0, FingerUp(q1), h, t2, outside, maxDist);
      var r3 := Handle(r2.0, FingerDown(p2), h, t3, outside, maxDist);
      var r4 := Handle(r3.0, FingerUp(q2), h, t4, outside, maxDist);
      r4.0.pushed == s.pushed + [FingerDoubleClick(ToPixel(p1))] && r4.0.pendingClick == outside && r4.0.nbFingers == 0
  {
    var r1 := Handle(s, FingerDown(p1), h, t1, outside, maxDist);
    var r2 := Handle(r1.0, FingerUp(q1), h, t2, outside, maxDist);
    assert r2.0.pendingClick == ToPixel(p1) && r2.0.beginDragTouch == ToPixel(p1) && r2.0.clickBegin == t1;
    var r3 := Handle(r2.0, FingerDown(p2), h, t3, outside, maxDist);
    assert r3.0.beginDragTouch == ToPixel(p1) && r3.0.clickBegin == t1 && r3.0.nbFingers == 1;
  }

  /** A tap left alone for more than DOUBLECLICK_MS becomes one single click at its
      touch-down point. */
  lemma TapThenTimeout(s: Input, p: Pos, q: Pos, t1: int, t2: int, t3: int, h: HandlerType, outside: Pixel, maxDist: real)
    requires s.nbFingers == 0 && s.pendingClick == outside && ToPixel(p) != outside
    requires t2 - t1 < DOUBLECLICK_MS && t3 - t1 > DOUBLECLICK_MS && Near(ToPixel(p), q, maxDist)
    ensures var r1 := Handle(s, FingerDown(p), h, t1, outside, maxDist);
      var r2 := Handle(r1.0, FingerUp(q), h, t2, outside, maxDist);
      var r3 := OnGoing(r2.0, t3, outside);
      r3.pushed == s.pushed + [FingerClick(ToPixel(p))] && r3.pendingClick == outside
  {
    SingleTap(s, p, q, t1, t2, h, outside, maxDist);
  }

  /** absDistBetweenAngles(a, b): the distance between two angles in degrees, going either way
      round the circle. */
  function AbsDistBetweenAngles(a: real, b: real): (r: real)
    ensures 0.0 <= r <= Abs(a - b)
    ensures 0.0 <= a < 360.0 && 0.0 <= b < 360.0 ==> r <= 180.0
    ensures 0.0 <= a < 360.0 && 0.0 <= b < 360.0 ==> r == Abs(a - b) || r == 360.0 - Abs(a - b)
  {
    Min(Abs(a - b), Abs(Abs(a - b) - 360.0))
  }

  function Abs(a: real): real {
    if a < 0.0 then -a else a
  }

  function Min(a: real, b: real): real {
    if a < b then a else b
  }

  lemma AbsDistSymmetric(a: real, b: real)
    ensures AbsDistBetweenAngles(a, b) == AbsDistBetweenAngles(b, a)
  {
  }

  /** The two cases of the repository's own test: 350 and 20 degrees are 30 degrees apart. */
  lemma AbsDistAcrossZero()
    ensures AbsDistBetweenAngles(350.0, 20.0) == 30.0 && AbsDistBetweenAngles(20.0, 350.0) == 30.0
  {
  }

  class EventHandler {
    var nbFingers: nat
    var beginDragTouch: Pixel
    var beginDragLeft: Pixel
    var pendingClick: Pixel
    /** The time at which the double-click clock was last restarted. */
    var clickBegin: int
    var pushed: seq<UserEvent>
    var calls: seq<Call>
    /** DEFAULT_OUTSIDE_WINDOW_COORD. */
    const outside: Pixel
    /** MAX_DIST_FOR_CLICK. */
    const maxDist: real

    function State(): Input
      reads this
    {
      Input(nbFingers, beginDragTouch, beginDragLeft, pendingClick, clickBegin, pushed, calls)
    }

    /** The drag origin and the pending click start at the sentinel; the clock starts at
        `now`. */
    constructor(outside: Pixel, maxDist: real, now: int)
      ensures State() == Input(0, (0, 0), outside, outside, now, [], [])
      ensures this.outside == outside && this.maxDist == maxDist
    {
      nbFingers := 0;
      beginDragTouch := (0, 0);
      beginDragLeft := outside;
      pendingClick := outside;
      clickBegin := now;
      pushed, calls := [], [];
      this.outside := outside;
      this.maxDist := maxDist;
    }

    /** handleEvent(event, currentHandler), at time `now`. */
    method HandleEvent(e: Event, currentHandler: HandlerType, now: int) returns (running: bool, handler: HandlerType)
      modifies this
      ensures (State(), running, handler) == Handle(old(State()), e, currentHandler, now, outside, maxDist)
    {
      running := true;
      handler := currentHandler;
      match e {
        case Quit =>
          running := false;
        case WindowResized(w, h) =>
          calls := calls + [CameraResize(w, h)];
        case OtherWindowEvent =>
        case FingerDown(p) =>
          nbFingers := Inc(nbFingers);
          if nbFingers == 1 && pendingClick == outside {
            beginDragTouch := ToPixel(p);
            clickBegin := now;
          }
        case FingerUp(p) =>
          nbFingers := Dec(nbFingers);
          var begin := beginDragTouch;
          if nbFingers == 0 && now - clickBegin < DOUBLECLICK_MS && Near(begin, p, maxDist) {
            var pending := pendingClick;
            if pendingClick == outside {
              pendingClick := beginDragTouch;
            } else if Near(pending, p, maxDist) {
              pushed := pushed + [FingerDoubleClick(pendingClick)];
              pendingClick := outside;
            }
          }
        case KeyDown(k) =>
          if k == Escape {
            running := false;
          } else if k == KeyL {
            calls := calls + [SwitchLog];
          } else if k == KeyM {
            if currentHandler == HdlrGame {
              handler := HdlrSandbox;
            } else {
              handler := HdlrGame;
            }
          } else if k == KeyP {
            calls := calls + [ToggleGlobalTimer];
          }
        case MouseButtonDown(b, x, y) =>
          if b == ButtonLeft {
            beginDragLeft := (x, y);
          }
        case MouseButtonUp(b, _, _) =>
          if b == ButtonLeft {
            beginDragLeft := outside;
          }
        case OtherEvent =>
      }
    }

    /** onGoingEvents(msElapsed), at time `now`; the elapsed time is ignored, as in the
        source. */
    method OnGoingEvents(msElapsed: int, now: int)
      modifies this
      ensures State() == OnGoing(old(State()), now, outside)
    {
      if pendingClick != outside && now - clickBegin > DOUBLECLICK_MS {
        pushed := pushed + [FingerClick(pendingClick)];
        pendingClick := outside;
      }
    }
  }
}
