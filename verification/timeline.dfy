/**
 * `PremiumTimeline`'s two intervals: the playhead moves half a percent per
 * tick and wraps at 100 %, and the "RENDERING..." flag toggles. The playhead
 * is held in half-percent units, so `(p + 0.5) % 100` becomes `(p + 1) % 200`.
 */
module Timeline {
  import ModArith

  /** Half-percent steps in one pass of the playhead. */
  const Steps: nat := 200

  datatype TimelineState = TimelineState(playhead: nat, isRendering: bool)

  const Initial: TimelineState := TimelineState(0, false)

  datatype Tick = PlayheadTick | RenderTick

  /** The playhead interval's update: one half-percent on, wrapping to 0 after 99.5 %. */
  function Advance(p: nat): (r: nat)
    ensures r < Steps
    ensures p + 1 < Steps ==> r == p + 1
    ensures p + 1 == Steps ==> r == 0
  {
    (p + 1) % 200
  }

  /** The playhead as the percentage the component stores. */
  function Percent(p: nat): real
  {
    p as real / 2.0
  }

  /** JavaScript's `x % 100` on the values the playhead can take. */
  function JsMod100(x: real): real
    requires 0.0 <= x < 200.0
  {
    if x < 100.0 then x else x - 100.0
  }

  /** The integer encoding agrees with the component's `(prev + 0.5) % 100` on every reachable value. */
  lemma AdvanceMatchesPercent(p: nat)
    requires p < Steps
    ensures Percent(Advance(p)) == JsMod100(Percent(p) + 0.5)
    ensures 0.0 <= Percent(Advance(p)) < 100.0
  {
  }

  /** One interval callback: each tick changes its own field and keeps the other. */
  function Apply(s: TimelineState, t: Tick): (r: TimelineState)
    ensures t.PlayheadTick? ==> r.playhead == Advance(s.playhead) && r.isRendering == s.isRendering
    ensures t.RenderTick? ==> r.isRendering == !s.isRendering && r.playhead == s.playhead
  {
    match t
    case PlayheadTick => s.(playhead := Advance(s.playhead))
    case RenderTick => s.(isRendering := !s.isRendering)
  }

  function Run(s: TimelineState, ticks: seq<Tick>): TimelineState
    decreases |ticks|
  {
    if ticks == [] then s else Run(Apply(s, ticks[0]), ticks[1..])
  }

  function Count(ticks: seq<Tick>, t: Tick): nat
  {
    if ticks == [] then 0 else (if ticks[0] == t then 1 else 0) + Count(ticks[1..], t)
  }

  /**
   * The two intervals never interfere: whatever the interleaving, the
   * playhead is at (number of playhead ticks) mod 200 and the flag is on
   * exactly after an odd number of render ticks.
   */
  lemma {:induction false} RunCounts(s: TimelineState, ticks: seq<Tick>)
    requires s.playhead < Steps
    ensures Run(s, ticks).playhead == (s.playhead + Count(ticks, PlayheadTick)) % Steps
    ensures Run(s, ticks).isRendering == (s.isRendering != (Count(ticks, RenderTick) % 2 == 1))
    decreases |ticks|
  {
    if ticks == [] {
      ModArith.ModBelow(s.playhead, Steps);
    } else {
      var s' := Apply(s, ticks[0]);
      RunCounts(s', ticks[1..]);
      var n := Count(ticks[1..], PlayheadTick);
      if ticks[0] == PlayheadTick {
        ModArith.ModAdd(s.playhead + 1, n, Steps);
      }
    }
  }

  /** From the first render: the playhead is the number of its ticks mod 200, the flag the parity of render ticks. */
  lemma FromInitial(ticks: seq<Tick>)
    ensures Run(Initial, ticks).playhead == Count(ticks, PlayheadTick) % Steps
    ensures Run(Initial, ticks).isRendering <==> Count(ticks, RenderTick) % 2 == 1
  {
    RunCounts(Initial, ticks);
  }
}
