/** On-screen buttons and the touch state machine of `GameContext`. A
    button's `pressed_func` callback is modelled by returning the calls
    it receives; the buttons are held in a list and the touch map records,
    for each touch (by its identity), the position in that list of the
    button it pressed. */
module Contexts {
  import opened Analytic
  import opened Wrappers
  import opened Vectors
  import opened Celestials

  const DefaultDiameter: real := 80.0

  datatype Button = Button(position: Vec, pressed: bool, active: bool, diameter: real)

  /** `Button(x, y, pressed_func, diameter = 80)`. */
  function NewButton(x: real, y: real, diameter: real := DefaultDiameter): Button {
    Button(Vec(x, y), false, true, diameter)
  }

  /** A new button is unpressed and active, 80 across unless told
      otherwise. */
  lemma NewButtonDefaults(x: real, y: real)
    ensures var b := NewButton(x, y);
            !b.pressed && b.active && b.diameter == 80.0 && b.position == Vec(x, y)
  {
  }

  /** One call of a button's `pressed_func`: the button's position in the
      list and the value passed. */
  datatype Call = Call(button: nat, value: bool)

  /** Assigning `pressed` on button `i`: the value is stored and the
      callback is called with it. */
  function SetPressed(bs: seq<Button>, i: nat, value: bool): (seq<Button>, Call)
    requires i < |bs|
  {
    (bs[i := bs[i].(pressed := value)], Call(i, value))
  }

  /** Reading `pressed` back gives the value assigned; the callback gets
      that same value whether or not it changes anything, so assigning the
      same value twice calls back twice; no other button is touched. */
  lemma SetPressedLaws(bs: seq<Button>, i: nat, value: bool)
    requires i < |bs|
    ensures var (bs1, call) := SetPressed(bs, i, value);
            && |bs1| == |bs| && bs1[i].pressed == value && call == Call(i, value)
            && bs1[i].(pressed := bs[i].pressed) == bs[i]
            && (forall k :: 0 <= k < |bs| && k != i ==> bs1[k] == bs[k])
    ensures var (bs1, call1) := SetPressed(bs, i, value);
            var (bs2, call2) := SetPressed(bs1, i, value);
            bs2 == bs1 && call2 == call1
  {
  }

  // ---------------------------------------------------------------------
  // GameContext

  /** A touch: its identity and where it is. */
  datatype Touch = Touch(id: nat, location: Vec)

  datatype Context = Context(buttons: seq<Button>, touches: map<nat, nat>)

  /** Every recorded touch names a button of the list. */
  predicate Valid(ctx: Context) {
    forall t :: t in ctx.touches ==> ctx.touches[t] < |ctx.buttons|
  }

  function NewContext(buttons: seq<Button>): (ctx: Context) {
    Context(buttons, map[])
  }

  lemma NewContextValid(buttons: seq<Button>)
    ensures Valid(NewContext(buttons)) && NewContext(buttons).touches == map[]
  {
  }

  /** A touch at `loc` is on button `b`: within half its diameter of its
      centre, border included. */
  predicate OnButton(sqrt: real -> real, b: Button, loc: Vec) {
    Within(sqrt, loc, b.position, b.diameter / 2.0)
  }

  /** The first button in list order that the touch is on, active or not. */
  function HitButton(sqrt: real -> real, bs: seq<Button>, loc: Vec): (r: Option<nat>)
    ensures r.Some? ==>
              && r.value < |bs| && OnButton(sqrt, bs[r.value], loc)
              && forall k :: 0 <= k < r.value ==> !OnButton(sqrt, bs[k], loc)
    ensures r.None? <==> forall k :: 0 <= k < |bs| ==> !OnButton(sqrt, bs[k], loc)
  {
    if |bs| == 0 then None
    else if OnButton(sqrt, bs[0], loc) then Some(0)
    else match HitButton(sqrt, bs[1..], loc)
      case None => None
      case Some(k) => Some(k + 1)
  }

  /** `touch_began`: the first button the touch is on is recorded for the
      touch and pressed. */
  function TouchBegan(sqrt: real -> real, ctx: Context, t: Touch): (Context, seq<Call>) {
    match HitButton(sqrt, ctx.buttons, t.location)
    case None => (ctx, [])
    case Some(i) =>
      var (bs, call) := SetPressed(ctx.buttons, i, true);
      (Context(bs, ctx.touches[t.id := i]), [call])
  }

  /** `touch_ended`: a recorded touch releases its button and is
      forgotten; any other touch is ignored. */
  function TouchEnded(ctx: Context, t: Touch): (Context, seq<Call>)
    requires Valid(ctx)
  {
    if t.id in ctx.touches then
      var (bs, call) := SetPressed(ctx.buttons, ctx.touches[t.id], false);
      (Context(bs, ctx.touches - {t.id}), [call])
    else
      (ctx, [])
  }

  /** A touch that begins off every button changes nothing and calls
      nothing; one that begins on a button records that button, the
      first in list order it is on, presses it with one call and leaves
      every other button and record alone. */
  lemma TouchBeganLaws(sqrt: real -> real, ctx: Context, t: Touch)
    requires Valid(ctx)
    ensures var (c, calls) := TouchBegan(sqrt, ctx, t);
            && Valid(c) && |c.buttons| == |ctx.buttons|
            && (HitButton(sqrt, ctx.buttons, t.location).None? <==>
                  (forall k :: 0 <= k < |ctx.buttons| ==> !OnButton(sqrt, ctx.buttons[k], t.location)))
            && (HitButton(sqrt, ctx.buttons, t.location).None? ==> c == ctx && calls == [])
    ensures var (c, calls) := TouchBegan(sqrt, ctx, t);
            var h := HitButton(sqrt, ctx.buttons, t.location);
            h.Some? ==>
              && c.touches == ctx.touches[t.id := h.value]
              && c.buttons[h.value].pressed && calls == [Call(h.value, true)]
              && (forall k :: 0 <= k < |ctx.buttons| && k != h.value ==> c.buttons[k] == ctx.buttons[k])
  {
  }

  /** Whether a button is active plays no part in which button a touch
      presses. */
  lemma {:induction false} HitIgnoresActive(sqrt: real -> real, bs: seq<Button>, i: nat, active: bool, loc: Vec)
    requires i < |bs|
    ensures HitButton(sqrt, bs[i := bs[i].(active := active)], loc) == HitButton(sqrt, bs, loc)
    decreases |bs|
  {
    var bs1 := bs[i := bs[i].(active := active)];
    assert OnButton(sqrt, bs1[0], loc) == OnButton(sqrt, bs[0], loc);
    if 0 < i {
      assert bs1[1..] == bs[1..][i - 1 := bs[i].(active := active)];
      HitIgnoresActive(sqrt, bs[1..], i - 1, active, loc);
    } else {
      assert bs1[1..] == bs[1..];
    }
  }

  /** Ending a recorded touch releases its button with one call and
      forgets the touch; ending any other touch changes nothing. */
  lemma TouchEndedLaws(ctx: Context, t: Touch)
    requires Valid(ctx)
    ensures var (c, calls) := TouchEnded(ctx, t);
            && Valid(c) && |c.buttons| == |ctx.buttons|
            && (t.id !in ctx.touches ==> c == ctx && calls == [])
            && (t.id in ctx.touches ==>
                  var i := ctx.touches[t.id];
                  && !c.buttons[i].pressed && calls == [Call(i, false)]
                  && c.touches.Keys == ctx.touches.Keys - {t.id}
                  && (forall u :: u in c.touches ==> c.touches[u] == ctx.touches[u])
                  && (forall k :: 0 <= k < |ctx.buttons| && k != i ==> c.buttons[k] == ctx.buttons[k]))
  {
  }

  /** A tap on a button, from a state where the touch is not recorded,
      presses and releases it and leaves the touch map as it was. */
  lemma TapRestoresTouches(sqrt: real -> real, ctx: Context, t: Touch)
    requires Valid(ctx) && t.id !in ctx.touches
    requires HitButton(sqrt, ctx.buttons, t.location).Some?
    ensures var (c1, calls1) := TouchBegan(sqrt, ctx, t);
            Valid(c1) &&
            var (c2, calls2) := TouchEnded(c1, t);
            var i := HitButton(sqrt, ctx.buttons, t.location).value;
            && c2.touches == ctx.touches && !c2.buttons[i].pressed
            && calls1 + calls2 == [Call(i, true), Call(i, false)]
  {
    TouchBeganLaws(sqrt, ctx, t);
    var c1 := TouchBegan(sqrt, ctx, t).0;
    assert c1.touches - {t.id} == ctx.touches;
  }

  /** With two touches on one button, ending either releases the button
      although the other touch is still down and still recorded. */
  lemma TwoTouchesOneButton(sqrt: real -> real, ctx: Context, t1: Touch, t2: Touch)
    requires Valid(ctx) && t1.id != t2.id
    requires HitButton(sqrt, ctx.buttons, t1.location).Some?
    requires HitButton(sqrt, ctx.buttons, t2.location) == HitButton(sqrt, ctx.buttons, t1.location)
    ensures var c1 := TouchBegan(sqrt, ctx, t1).0;
            var c2 := TouchBegan(sqrt, c1, t2).0;
            Valid(c2) &&
            var c3 := TouchEnded(c2, t1).0;
            var i := HitButton(sqrt, ctx.buttons, t1.location).value;
            && c2.buttons[i].pressed
            && !c3.buttons[i].pressed
            && t2.id in c3.touches && c3.touches[t2.id] == i
  {
    var i := HitButton(sqrt, ctx.buttons, t1.location).value;
    TouchBeganLaws(sqrt, ctx, t1);
    var c1 := TouchBegan(sqrt, ctx, t1).0;
    assert c1.buttons == ctx.buttons[i := ctx.buttons[i].(pressed := true)];
    HitIgnoresPressed(sqrt, ctx.buttons, i, t2.location);
    TouchBeganLaws(sqrt, c1, t2);
  }

  /** Whether a button is pressed plays no part in which button a touch
      presses. */
  lemma {:induction false} HitIgnoresPressed(sqrt: real -> real, bs: seq<Button>, i: nat, loc: Vec)
    requires i < |bs|
    ensures HitButton(sqrt, bs[i := bs[i].(pressed := true)], loc) == HitButton(sqrt, bs, loc)
    decreases |bs|
  {
    var bs1 := bs[i := bs[i].(pressed := true)];
    assert OnButton(sqrt, bs1[0], loc) == OnButton(sqrt, bs[0], loc);
    if 0 < i {
      assert bs1[1..] == bs[1..][i - 1 := bs[i].(pressed := true)];
      HitIgnoresPressed(sqrt, bs[1..], i - 1, loc);
    } else {
      assert bs1[1..] == bs[1..];
    }
  }
}
