/**
 * The start-time +/- buttons (adjustStart, app.js:496-535): a per-entry stage
 * machine kept in `state.roundingStart`. A first press in a direction snaps
 * the start to the 5-minute grid, a second to the 15-minute grid, later ones
 * move by a quarter hour; reversing the direction starts over.
 */
module Rounding {
  import opened Base
  import opened TimeOfDay
  import Uniqueness

  /** ceilUp (app.js:504-506): the next multiple of `step` strictly after `m`. */
  function CeilUp(m: nat, step: nat): (r: int)
    requires step == 5 || step == 15
    ensures r % step == 0 && m < r <= m + step
  {
    var rem := JsRem(m, step);
    m + (if rem == 0 then step else step - rem)
  }

  /** floorDown (app.js:507-509): the last multiple of `step` strictly before `m`. */
  function FloorDown(m: nat, step: nat): (r: int)
    requires step == 5 || step == 15
    ensures r % step == 0 && m - step <= r < m
  {
    var rem := JsRem(m, step);
    m - (if rem == 0 then step else rem)
  }

  /** No multiple of `step` lies strictly between `m` and CeilUp(m, step). */
  lemma CeilUpNearest(m: nat, step: nat, x: int)
    requires step == 5 || step == 15
    requires x % step == 0 && x > m
    ensures CeilUp(m, step) <= x
  {
  }

  /** No multiple of `step` lies strictly between FloorDown(m, step) and `m`. */
  lemma FloorDownNearest(m: nat, step: nat, x: int)
    requires step == 5 || step == 15
    requires x % step == 0 && x < m
    ensures x <= FloorDown(m, step)
  {
  }

  /** The record `{ stage, lastDir, at }` kept per entry in `state.roundingStart`. */
  datatype RoundingState = RoundingState(stage: nat, lastDir: int, at: int)

  /**
   * `((x % day) + day) % day` of app.js:528 with JavaScript's `%`: the
   * mathematical remainder modulo a day, also for a negative `x`.
   */
  function Normalize(x: int): (r: nat)
    ensures r < MinutesPerDay && r == x % MinutesPerDay
  {
    NormalizeIsModulo(x);
    JsRem(JsRem(x, MinutesPerDay) + MinutesPerDay, MinutesPerDay)
  }

  lemma NormalizeIsModulo(x: int)
    ensures var r := JsRem(JsRem(x, MinutesPerDay) + MinutesPerDay, MinutesPerDay);
            0 <= r < MinutesPerDay && r == x % MinutesPerDay
  {
    var a := JsRem(x, MinutesPerDay);
    if x >= 0 {
      assert a + MinutesPerDay == MinutesPerDay * 1 + a;
    } else {
      var q, t := (-x) / MinutesPerDay, (-x) % MinutesPerDay;
      assert -x == MinutesPerDay * q + t;
      assert a == -t;
      if t == 0 {
        assert x == MinutesPerDay * (-q);
      } else {
        assert x == MinutesPerDay * (-q - 1) + (MinutesPerDay - t);
      }
    }
  }

  /** The outcome of one press: the new start minute (before collisions are resolved) and the saved state. */
  datatype Press = Press(minute: nat, state: RoundingState)

  /**
   * The stage the press is handled in (app.js:500-501): the saved stage, or 0
   * for an entry without saved state or when the direction changed.
   */
  function EntryStage(saved: Option<RoundingState>, dir: int): nat
  {
    match saved
    case None => 0
    case Some(st) => if st.lastDir != dir then 0 else st.stage
  }

  /**
   * One press of app.js:497-531 on a start of `current` minutes, `delta` giving
   * the direction and `nowTs` the time of the press.
   */
  function AdjustPress(saved: Option<RoundingState>, delta: int, current: nat, nowTs: int): Press
  {
    var dir := Uniqueness.Direction(delta);
    var st := match saved case None => RoundingState(0, dir, nowTs) case Some(s) => s;
    var st := if st.lastDir != dir then st.(stage := 0) else st;
    var (next, stage) :=
      if st.stage == 0 then (if dir > 0 then CeilUp(current, 5) else FloorDown(current, 5), 1)
      else if st.stage == 1 then (if dir > 0 then CeilUp(current, 15) else FloorDown(current, 15), 2)
      else (current + dir * 15, st.stage);
    Press(Normalize(next), st.(stage := stage, lastDir := dir, at := nowTs))
  }

  /**
   * What a press promises. The direction is the sign of `delta` and is
   * recorded with the time of the press. Stage 0 (a first press, or one after
   * reversing) lands on the nearest multiple of 5 strictly ahead of or behind
   * the start and moves to stage 1; stage 1 does the same on the 15-minute
   * grid and moves to stage 2; later stages move by exactly 15 minutes and
   * stay. The new minute is taken modulo a day.
   */
  lemma AdjustPressSpec(saved: Option<RoundingState>, delta: int, current: nat, nowTs: int)
    ensures var p := AdjustPress(saved, delta, current, nowTs);
            var dir := if delta >= 0 then 1 else -1;
            var stage := EntryStage(saved, dir);
            && p.minute < MinutesPerDay
            && p.state.lastDir == dir && p.state.at == nowTs
            && (stage == 0 ==> p.state.stage == 1 && p.minute % 5 == 0)
            && (stage == 0 && dir == 1 ==> exists c :: c % 5 == 0 && current < c <= current + 5 && p.minute == c % MinutesPerDay)
            && (stage == 0 && dir == -1 ==> exists c :: c % 5 == 0 && current - 5 <= c < current && p.minute == c % MinutesPerDay)
            && (stage == 1 ==> p.state.stage == 2 && p.minute % 15 == 0)
            && (stage == 1 && dir == 1 ==> exists c :: c % 15 == 0 && current < c <= current + 15 && p.minute == c % MinutesPerDay)
            && (stage == 1 && dir == -1 ==> exists c :: c % 15 == 0 && current - 15 <= c < current && p.minute == c % MinutesPerDay)
            && (stage >= 2 ==> p.state.stage == stage && p.minute == (current + dir * 15) % MinutesPerDay)
  {
    var p := AdjustPress(saved, delta, current, nowTs);
    var dir := if delta >= 0 then 1 else -1;
    var stage := EntryStage(saved, dir);
    if stage == 0 {
      var c := if dir == 1 then CeilUp(current, 5) else FloorDown(current, 5);
      assert p.minute == c % MinutesPerDay;
      ModuloOfMultiple(c, 5);
    } else if stage == 1 {
      var c := if dir == 1 then CeilUp(current, 15) else FloorDown(current, 15);
      assert p.minute == c % MinutesPerDay;
      ModuloOfMultiple(c, 15);
    }
  }

  /** A day is a whole number of 5- and 15-minute slots, so taking a grid minute modulo a day keeps it on the grid. */
  lemma ModuloOfMultiple(c: int, step: nat)
    requires step == 5 || step == 15
    requires c % step == 0
    ensures (c % MinutesPerDay) % step == 0
  {
    var q := c / MinutesPerDay;
    assert c == MinutesPerDay * q + c % MinutesPerDay;
    assert c == step * (c / step);
    if step == 5 {
      assert c % MinutesPerDay == 5 * (c / 5 - 288 * q);
    } else {
      assert c % MinutesPerDay == 15 * (c / 15 - 96 * q);
    }
  }

  /** Pressing in the other direction always starts over at the 5-minute grid. */
  lemma ReversalRestarts(st: RoundingState, delta: int, current: nat, nowTs: int)
    requires st.lastDir != Uniqueness.Direction(delta)
    ensures AdjustPress(Some(st), delta, current, nowTs).state.stage == 1
    ensures AdjustPress(Some(st), delta, current, nowTs).minute % 5 == 0
  {
    AdjustPressSpec(Some(st), delta, current, nowTs);
  }

  /** Three presses the same way from a fresh entry: 5-minute grid, 15-minute grid, then a quarter hour. */
  lemma ThreePresses()
    ensures AdjustPress(None, 1, 7 * 60 + 2, 0).minute == 7 * 60 + 5
    ensures AdjustPress(Some(AdjustPress(None, 1, 7 * 60 + 2, 0).state), 1, 7 * 60 + 5, 1).minute == 7 * 60 + 15
    ensures AdjustPress(Some(RoundingState(2, 1, 1)), 1, 7 * 60 + 15, 2).minute == 7 * 60 + 30
    ensures AdjustPress(None, -1, 0, 0).minute == 23 * 60 + 55
  {
  }
}
