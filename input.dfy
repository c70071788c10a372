/**
 * The Input class: which keys and mouse buttons are held, which went down
 * this frame, and the mouse-down bookkeeping behind click detection.
 *
 * The source keeps this state in static fields; here it is an object. The
 * stage's DispatchMouseDownInternal and DispatchMouseUpInternal are passed in
 * as functions (`StageHits`) that give the object each one reports, and every
 * call UpdateFrameInput makes on the stage or on a clicked object is recorded
 * in `stageCalls`. Time is the frame's elapsed seconds as a real.
 */
module Input {
  import opened Geom
  import opened Errors
  import Display

  /** Veldrid's Key enumeration, by code. */
  type Key = nat

  /** Veldrid's MouseButton enumeration; only Left is treated specially. */
  datatype MouseButton = Left | Middle | Right | Extra(index: nat)

  /** A key or button event of the snapshot: which one, and whether it went down or up. */
  datatype Event<T> = Event(id: T, down: bool)

  type KeyEvent = Event<Key>

  type MouseEvent = Event<MouseButton>

  /** One frame's InputSnapshot: the events in arrival order and the mouse position. */
  datatype InputSnapshot = InputSnapshot(keyEvents: seq<KeyEvent>, mouseEvents: seq<MouseEvent>, mousePosition: Point)

  /** What the stage reports for a mouse down and a mouse up: the object hit, or null. */
  datatype StageHits = StageHits(down: (MouseButton, Point) -> Display.DisplayObject?,
                                 up: (MouseButton, Point) -> Display.DisplayObject?)

  /** The calls UpdateFrameInput makes on the stage and on clicked objects. */
  datatype StageCall =
    | MouseDownCall(button: MouseButton, at: Point)
    | MouseUpCall(button: MouseButton, at: Point)
    | ClickCall(target: Display.DisplayObject, at: Point)
    | MouseMoveCall(at: Point)

  /** Seconds between a left down and a left up on the same object that make a click. */
  const ClickTime: real := 0.3

  /**
   * A pair of the source's HashSets: what is held down, and what went down
   * this frame.
   */
  datatype Held<T(==)> = Held(held: set<T>, thisFrame: set<T>)
  {
    /** Whatever went down this frame is still held. */
    ghost predicate Valid()
    {
      thisFrame <= held
    }

    /**
     * A down event: HashSet.Add on the held set, and on the new set only when
     * that Add reported the element as not yet held.
     */
    function Press(x: T): (h: Held<T>)
      ensures x in h.held
      ensures x in h.thisFrame <==> x in thisFrame || x !in held
      ensures h.held - {x} == held - {x} && h.thisFrame - {x} == thisFrame - {x}
      ensures Valid() ==> h.Valid()
    {
      if x in held then this else Held(held + {x}, thisFrame + {x})
    }

    /** An up event: removed from both sets. */
    function Release(x: T): (h: Held<T>)
      ensures x !in h.held && x !in h.thisFrame
      ensures h.held - {x} == held - {x} && h.thisFrame - {x} == thisFrame - {x}
      ensures Valid() ==> h.Valid()
    {
      Held(held - {x}, thisFrame - {x})
    }

    /** The start of a frame: nothing has gone down yet. */
    function NewFrame(): (h: Held<T>)
      ensures h.Valid()
    {
      Held(held, {})
    }
  }

  /** A held key's repeated down event changes nothing. */
  lemma PressIsIdempotent<T>(h: Held<T>, x: T)
    ensures h.Press(x).Press(x) == h.Press(x)
  {
  }

  /** KeyDown or KeyUp for one event; the mouse loop treats its button sets the same way. */
  function Apply<T>(h: Held<T>, e: Event<T>): Held<T>
  {
    if e.down then h.Press(e.id) else h.Release(e.id)
  }

  /** The sets after applying `events` in order: the key loop of UpdateFrameInput. */
  function After<T>(h: Held<T>, events: seq<Event<T>>): Held<T>
  {
    if events == [] then h else Apply(After(h, events[..|events| - 1]), events[|events| - 1])
  }

  /** The mouse half of the state: the button sets, _mouseDownData, _lastMouseDownObject and the calls made. */
  datatype Mouse = Mouse(buttons: Held<MouseButton>, downTime: real, downAt: Point,
                         lastDown: Display.DisplayObject?, calls: seq<StageCall>)

  /**
   * The outcome of handling mouse events: on, or stopped by an exception
   * with the state as the exception left it.
   */
  datatype Outcome = Going(mouse: Mouse) | Thrown(mouse: Mouse, error: Error)

  /**
   * One pass of the mouse loop. A down of a button not yet held is
   * dispatched to the stage, whose answer becomes the last-down object, and
   * a left one records the time and position. An up is dispatched to the
   * stage; it is a click when the button is left, less than ClickTime has
   * passed since the last recorded left down, and the stage answers the
   * last-down object, and the click is sent to that object (a null one
   * throws). After an up that did not throw, the last-down object is null.
   */
  function MouseStep(m: Mouse, e: MouseEvent, now: real, at: Point, stage: StageHits): Outcome
  {
    if e.down then
      if e.id in m.buttons.held then Going(m)
      else
        var left := e.id == Left;
        Going(Mouse(m.buttons.Press(e.id), if left then now else m.downTime, if left then at else m.downAt,
                    stage.down(e.id, at), m.calls + [MouseDownCall(e.id, at)]))
    else
      var target := stage.up(e.id, at);
      var released := m.(buttons := m.buttons.Release(e.id), calls := m.calls + [MouseUpCall(e.id, at)]);
      if e.id == Left && now - m.downTime < ClickTime && m.lastDown == target then
        if target == null then Thrown(released, NullReference)
        else Going(released.(calls := released.calls + [ClickCall(target, at)], lastDown := null))
      else Going(released.(lastDown := null))
  }

  /** The mouse loop of UpdateFrameInput over `events`; an exception ends it. */
  function MouseAfter(m: Mouse, events: seq<MouseEvent>, now: real, at: Point, stage: StageHits): Outcome
  {
    if events == [] then Going(m)
    else
      match MouseAfter(m, events[..|events| - 1], now, at, stage)
      case Going(m') => MouseStep(m', events[|events| - 1], now, at, stage)
      case Thrown(m', error) => Thrown(m', error)
  }

  /** The whole of UpdateFrameInput on the mouse: both sets cleared, the loop, then the mouse move. */
  function MouseFrame(m: Mouse, snapshot: InputSnapshot, now: real, stage: StageHits): Outcome
  {
    var at := snapshot.mousePosition;
    match MouseAfter(m.(buttons := m.buttons.NewFrame()), snapshot.mouseEvents, now, at, stage)
    case Going(m') => Going(m'.(calls := m'.calls + [MouseMoveCall(at)]))
    case Thrown(m', error) => Thrown(m', error)
  }

  class Input {
    var pressedKeys: set<Key>
    var newKeys: set<Key>
    var pressedButtons: set<MouseButton>
    var newButtons: set<MouseButton>
    var mouseDownTime: real
    var mouseDownPosition: Point
    var lastMouseDownObject: Display.DisplayObject?
    var stageCalls: seq<StageCall>

    /** New keys and new buttons are held ones. */
    ghost predicate Valid()
      reads this
    {
      Keys().Valid() && MouseState().buttons.Valid()
    }

    function Keys(): Held<Key>
      reads this
    {
      Held(pressedKeys, newKeys)
    }

    function MouseState(): Mouse
      reads this
    {
      Mouse(Held(pressedButtons, newButtons), mouseDownTime, mouseDownPosition, lastMouseDownObject, stageCalls)
    }

    /** The static initial state: nothing held, no down recorded. */
    constructor ()
      ensures Valid() && Keys() == Held({}, {})
      ensures MouseState() == Mouse(Held({}, {}), 0.0, Point(0.0, 0.0), null, [])
    {
      pressedKeys, newKeys := {}, {};
      pressedButtons, newButtons := {}, {};
      mouseDownTime, mouseDownPosition := 0.0, Point(0.0, 0.0);
      lastMouseDownObject := null;
      stageCalls := [];
    }

    /** Whether the key is held down. */
    predicate IsKeyDown(key: Key)
      reads this
    {
      key in pressedKeys
    }

    /** Whether the key went down this frame. */
    predicate IsKeyPressedThisFrame(key: Key)
      reads this
    {
      key in newKeys
    }

    method KeyUp(key: Key)
      modifies this`pressedKeys, this`newKeys
      ensures Keys() == old(Keys()).Release(key)
    {
      pressedKeys := pressedKeys - {key};
      newKeys := newKeys - {key};
    }

    method KeyDown(key: Key)
      modifies this`pressedKeys, this`newKeys
      ensures Keys() == old(Keys()).Press(key)
    {
      var added := key !in pressedKeys;
      pressedKeys := pressedKeys + {key};
      if added {
        newKeys := newKeys + {key};
      }
    }

    /**
     * UpdateFrameInput(snapshot, elapsedTimeSinceStart): clears both new
     * sets, handles the key events and then the mouse events in order, and
     * reports the mouse position to the stage. A click on a null object
     * throws, which ends the frame's input handling where it stands.
     */
    method UpdateFrameInput(snapshot: InputSnapshot, now: real, stage: StageHits) returns (r: Outcome)
      requires Valid()
      modifies this
      ensures Valid()
      ensures Keys() == After(old(Keys()).NewFrame(), snapshot.keyEvents)
      ensures r == MouseFrame(old(MouseState()), snapshot, now, stage) && MouseState() == r.mouse
    {
      newKeys := {};
      newButtons := {};
      var i := 0;
      while i < |snapshot.keyEvents|
        invariant i <= |snapshot.keyEvents|
        invariant Keys() == After(old(Keys()).NewFrame(), snapshot.keyEvents[..i])
        invariant MouseState() == old(MouseState()).(buttons := old(MouseState()).buttons.NewFrame())
      {
        var ke := snapshot.keyEvents[i];
        if ke.down {
          KeyDown(ke.id);
        } else {
          KeyUp(ke.id);
        }
        assert snapshot.keyEvents[..i + 1][..i] == snapshot.keyEvents[..i];
        i := i + 1;
      }
      assert snapshot.keyEvents[..i] == snapshot.keyEvents;
      AfterKeepsValid(old(Keys()).NewFrame(), snapshot.keyEvents);
      var at := snapshot.mousePosition;
      ghost var start := MouseState();
      var j := 0;
      while j < |snapshot.mouseEvents|
        invariant j <= |snapshot.mouseEvents|
        invariant MouseAfter(start, snapshot.mouseEvents[..j], now, at, stage) == Going(MouseState())
        invariant Keys() == After(old(Keys()).NewFrame(), snapshot.keyEvents)
      {
        var me := snapshot.mouseEvents[j];
        assert snapshot.mouseEvents[..j + 1][..j] == snapshot.mouseEvents[..j];
        var thrown := HandleMouseEvent(me, now, at, stage);
        if thrown {
          MouseAfterStops(start, snapshot.mouseEvents, j + 1, now, at, stage);
          assert snapshot.mouseEvents[..|snapshot.mouseEvents|] == snapshot.mouseEvents;
          r := Thrown(MouseState(), NullReference);
          MouseAfterKeepsValid(start, snapshot.mouseEvents[..j + 1], now, at, stage);
          return;
        }
        j := j + 1;
      }
      assert snapshot.mouseEvents[..j] == snapshot.mouseEvents;
      MouseAfterKeepsValid(start, snapshot.mouseEvents, now, at, stage);
      stageCalls := stageCalls + [MouseMoveCall(at)];
      r := Going(MouseState());
    }

    /** One pass of the mouse loop of UpdateFrameInput; `thrown` when the click hit a null object. */
    method HandleMouseEvent(me: MouseEvent, now: real, at: Point, stage: StageHits) returns (thrown: bool)
      modifies this`pressedButtons, this`newButtons, this`mouseDownTime, this`mouseDownPosition
      modifies this`lastMouseDownObject, this`stageCalls
      ensures var o := MouseStep(old(MouseState()), me, now, at, stage); o.mouse == MouseState() && (thrown <==> o.Thrown?)
      ensures thrown ==> MouseStep(old(MouseState()), me, now, at, stage).error == NullReference
    {
      thrown := false;
      if me.down {
        if me.id !in pressedButtons {
          pressedButtons := pressedButtons + {me.id};
          newButtons := newButtons + {me.id};
          stageCalls := stageCalls + [MouseDownCall(me.id, at)];
          lastMouseDownObject := stage.down(me.id, at);
          if me.id == Left {
            mouseDownTime, mouseDownPosition := now, at;
          }
        }
      } else {
        pressedButtons := pressedButtons - {me.id};
        newButtons := newButtons - {me.id};
        stageCalls := stageCalls + [MouseUpCall(me.id, at)];
        var lastMouseUpObject := stage.up(me.id, at);
        if me.id == Left && now - mouseDownTime < ClickTime && lastMouseDownObject == lastMouseUpObject {
          if lastMouseUpObject == null {
            return true;
          }
          stageCalls := stageCalls + [ClickCall(lastMouseUpObject, at)];
        }
        lastMouseDownObject := null;
      }
    }
  }

  /** Once the mouse loop has thrown, later events change nothing. */
  lemma {:induction false} MouseAfterStops(m: Mouse, events: seq<MouseEvent>, k: nat, now: real, at: Point,
                                           stage: StageHits)
    requires k <= |events| && MouseAfter(m, events[..k], now, at, stage).Thrown?
    ensures MouseAfter(m, events, now, at, stage) == MouseAfter(m, events[..k], now, at, stage)
    decreases |events| - k
  {
    if k < |events| {
      assert events[..k + 1][..k] == events[..k];
      MouseAfterStops(m, events, k + 1, now, at, stage);
    } else {
      assert events[..k] == events;
    }
  }

  /** The key loop keeps new keys among held keys. */
  lemma {:induction false} AfterKeepsValid<T>(h: Held<T>, events: seq<Event<T>>)
    requires h.Valid()
    ensures After(h, events).Valid()
  {
    if events != [] {
      AfterKeepsValid(h, events[..|events| - 1]);
    }
  }

  /** The mouse loop keeps new buttons among held buttons, thrown or not. */
  lemma {:induction false} MouseAfterKeepsValid(m: Mouse, events: seq<MouseEvent>, now: real, at: Point,
                                                stage: StageHits)
    requires m.buttons.Valid()
    ensures MouseAfter(m, events, now, at, stage).mouse.buttons.Valid()
  {
    if events != [] {
      MouseAfterKeepsValid(m, events[..|events| - 1], now, at, stage);
    }
  }
  /** An element no event names keeps its status. */
  lemma {:induction false} UntouchedKeepsStatus<T>(h: Held<T>, events: seq<Event<T>>, x: T)
    requires forall i :: 0 <= i < |events| ==> events[i].id != x
    ensures x in After(h, events).held <==> x in h.held
    ensures x in After(h, events).thisFrame <==> x in h.thisFrame
  {
    if events != [] {
      UntouchedKeepsStatus(h, events[..|events| - 1], x);
    }
  }

  /** The last event naming an element decides whether it is held; after an up it is not new either. */
  lemma {:induction false} LastEventDecides<T>(h: Held<T>, events: seq<Event<T>>, x: T, j: nat)
    requires j < |events| && events[j].id == x
    requires forall i :: j < i < |events| ==> events[i].id != x
    ensures x in After(h, events).held <==> events[j].down
    ensures !events[j].down ==> x !in After(h, events).thisFrame
  {
    if j < |events| - 1 {
      LastEventDecides(h, events[..|events| - 1], x, j);
    }
  }

  /** Repeated downs of an element held from an earlier frame never make it new. */
  lemma {:induction false} HeldStaysOld<T>(h: Held<T>, events: seq<Event<T>>, x: T)
    requires x in h.held && x !in h.thisFrame
    requires forall i :: 0 <= i < |events| ==> events[i] != Event(x, false)
    ensures x in After(h, events).held && x !in After(h, events).thisFrame
  {
    if events != [] {
      HeldStaysOld(h, events[..|events| - 1], x);
    }
  }

  /** Whatever is new at the end is either new at the start or had a down event. */
  lemma {:induction false} NewHadDown<T>(h: Held<T>, events: seq<Event<T>>, x: T)
    requires x in After(h, events).thisFrame && x !in h.thisFrame
    ensures exists i :: 0 <= i < |events| && events[i] == Event(x, true)
  {
    var last := |events| - 1;
    if events[last] != Event(x, true) {
      NewHadDown(h, events[..last], x);
      var i :| 0 <= i < last && events[..last][i] == Event(x, true);
      assert events[i] == Event(x, true);
    }
  }

  /**
   * After UpdateFrameInput, a key that IsKeyPressedThisFrame reports is one
   * IsKeyDown reports, and it had a down event in the frame's snapshot.
   */
  lemma PressedThisFrameWentDown(before: Held<Key>, events: seq<KeyEvent>, k: Key)
    requires k in After(before.NewFrame(), events).thisFrame
    ensures k in After(before.NewFrame(), events).held
    ensures exists i :: 0 <= i < |events| && events[i] == Event(k, true)
  {
    AfterKeepsValid(before.NewFrame(), events);
    NewHadDown(before.NewFrame(), events, k);
  }

  /** While nothing throws, the mouse loop keeps its button sets exactly as the key loop keeps the key sets. */
  lemma {:induction false} ButtonsFollowEvents(m: Mouse, events: seq<MouseEvent>, now: real, at: Point,
                                               stage: StageHits)
    requires MouseAfter(m, events, now, at, stage).Going?
    ensures MouseAfter(m, events, now, at, stage).mouse.buttons == After(m.buttons, events)
  {
    if events != [] {
      ButtonsFollowEvents(m, events[..|events| - 1], now, at, stage);
    }
  }

  /** Only a left-button down moves the recorded time and position of the last left down. */
  lemma {:induction false} DownDataNeedsLeftDown(m: Mouse, events: seq<MouseEvent>, now: real, at: Point,
                                                 stage: StageHits)
    requires forall i :: 0 <= i < |events| ==> events[i] != Event(Left, true)
    ensures MouseAfter(m, events, now, at, stage).mouse.downTime == m.downTime
    ensures MouseAfter(m, events, now, at, stage).mouse.downAt == m.downAt
  {
    if events != [] {
      DownDataNeedsLeftDown(m, events[..|events| - 1], now, at, stage);
    }
  }

  /** A down of a button already held dispatches nothing and changes nothing. */
  lemma RepeatedDownIgnored(m: Mouse, b: MouseButton, now: real, at: Point, stage: StageHits)
    requires b in m.buttons.held
    ensures MouseStep(m, Event(b, true), now, at, stage) == Going(m)
  {
  }

  /**
   * The click rule for one up event: it throws exactly when a left up comes
   * in time and both the down and the up hit nothing; it sends a click
   * exactly when a left up comes in time on the object the last down hit;
   * and unless it throws it forgets that object.
   */
  lemma ClickRule(m: Mouse, b: MouseButton, now: real, at: Point, stage: StageHits)
    ensures var o := MouseStep(m, Event(b, false), now, at, stage);
      && (o.Thrown? <==> b == Left && now - m.downTime < ClickTime && m.lastDown == null && stage.up(b, at) == null)
      && (o.Going? ==> o.mouse.lastDown == null)
      && (o.Going? && |o.mouse.calls| == |m.calls| + 2 <==>
            b == Left && now - m.downTime < ClickTime && m.lastDown != null && stage.up(b, at) == m.lastDown)
      && (b == Left && now - m.downTime < ClickTime && m.lastDown != null && stage.up(b, at) == m.lastDown ==>
            o.mouse.calls == m.calls + [MouseUpCall(Left, at), ClickCall(m.lastDown, at)])
  {
  }

  /**
   * A click goes to the object the most recent down of ANY button hit: a
   * right-button down on another object between the left down and the left
   * up turns the left up into a click on that object.
   */
  lemma ClickTargetIsLastDownOfAnyButton(m: Mouse, b: Display.DisplayObject, at: Point, stage: StageHits)
    requires m.buttons.held == {Left} && m.downTime == 0.0
    requires stage.down(Right, at) == b && stage.up(Left, at) == b
    ensures MouseAfter(m, [Event(Right, true), Event(Left, false)], 0.1, at, stage).mouse.calls
         == m.calls + [MouseDownCall(Right, at), MouseUpCall(Left, at), ClickCall(b, at)]
  {
    var events := [Event(Right, true), Event(Left, false)];
    assert events[..1] == [Event(Right, true)] && events[..1][..0] == [];
    var afterRight := MouseStep(m, Event(Right, true), 0.1, at, stage);
    assert afterRight.Going? && afterRight.mouse.lastDown == b && afterRight.mouse.downTime == 0.0;
    assert MouseAfter(m, events[..1], 0.1, at, stage) == afterRight;
  }
}
