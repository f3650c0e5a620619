/** The rotation as a state machine. Every worker holds the one lock for its whole
    loop body, so a turn (Green, Yellow, Red, advance the index, count the cycle)
    is one atomic step on the shared state; this module states those steps as
    functions and proves what a run from the initial state does. */
module Rotation {
  import opened Planner

  /** The colour of one light (the strings "Red", "Green" and "Yellow"). */
  datatype Color = Red | Green | Yellow

  /** What a run is started with: the planned list and the paired-mode flag. */
  datatype Config = Config(priority: seq<Entry>, paired: bool) {

    /** The number of workers: one per pair in paired mode, one per light otherwise. */
    function Slots(): nat
    {
      if paired then 2 else 4
    }

    /** The list holds the four entries and every id names one of the four lights. */
    predicate Wellformed()
    {
      |priority| == 4 && forall k :: 0 <= k < 4 ==> 0 <= priority[k].id < 4
    }
  }

  /** The shared state: the four colours, the active slot of the planned list,
      the completed cycles and the stop flag. */
  datatype State = State(lights: seq<Color>, active: int, cycles: int, stopped: bool)

  /** The light across the intersection: North-South and West-East. */
  function Opposite(id: int): int
  {
    (id + 2) % 4
  }

  /** The lights a slot whose entry carries `id` switches. */
  function LightsOf(id: int, paired: bool): set<int>
  {
    if paired then {id, Opposite(id)} else {id}
  }

  /** The colours after setting the lights in `which` to `c`. */
  function Paint(lights: seq<Color>, which: set<int>, c: Color): seq<Color>
  {
    seq(|lights|, i requires 0 <= i < |lights| => if i in which then c else lights[i])
  }

  predicate AllRed(lights: seq<Color>)
  {
    forall i :: 0 <= i < |lights| ==> lights[i] == Red
  }

  /** The state before any worker starts: all Red, slot 0 active, nothing counted. */
  function Init(): State
  {
    State([Red, Red, Red, Red], 0, 0, false)
  }

  /** The state once the run has stopped. */
  function Final(): State
  {
    State([Red, Red, Red, Red], 0, 1, true)
  }

  /** What holds of the shared state whenever no worker is inside its turn. */
  predicate Inv(c: Config, s: State)
  {
    && c.Wellformed()
    && |s.lights| == 4 && AllRed(s.lights)
    && 0 <= s.active < c.Slots()
    && 0 <= s.cycles <= 1
    && (s.stopped <==> s.cycles == 1)
    && (s.stopped ==> s.active == 0)
  }

  /** The condition worker k waits for before it may run its loop body: while
      the run goes on it holds only for the active slot's worker, and once the
      stop flag is set it holds for every worker. */
  function MayProceed(s: State, k: int): (r: bool)
    ensures s.stopped ==> r
    ensures !s.stopped ==> (r <==> k == s.active)
  {
    s.active == k || s.stopped
  }

  /** Worker k passes its wait and does not leave its loop: it takes a turn. */
  predicate Acts(s: State, k: int)
  {
    MayProceed(s, k) && !s.stopped
  }

  /** The lights of the active slot. */
  function ActiveLights(c: Config, s: State): set<int>
    requires c.Wellformed() && 0 <= s.active < c.Slots()
  {
    LightsOf(c.priority[s.active].id, c.paired)
  }

  /** The two snapshots a turn displays: after Green and after Yellow. */
  function Shown(c: Config, s: State): seq<seq<Color>>
    requires Inv(c, s)
  {
    var green := Paint(s.lights, ActiveLights(c, s), Green);
    [green, Paint(green, ActiveLights(c, s), Yellow)]
  }

  /** One turn of the active worker. */
  function Step(c: Config, s: State): (r: State)
    requires Inv(c, s) && !s.stopped
    ensures Inv(c, r)
    ensures r.lights == s.lights
    ensures r.active == (s.active + 1) % c.Slots()
    ensures r.cycles == s.cycles + (if r.active == 0 then 1 else 0)
    ensures r.stopped <==> r.active == 0
  {
    var which := ActiveLights(c, s);
    var lights := Paint(Paint(Paint(s.lights, which, Green), which, Yellow), which, Red);
    assert lights == s.lights;
    var next := (s.active + 1) % c.Slots();
    var cycles := if next == 0 then s.cycles + 1 else s.cycles;
    State(lights, next, cycles, s.stopped || (next == 0 && cycles == 1))
  }

  /** During a turn only the active slot's lights leave Red: the displayed
      snapshots show them Green, then Yellow, and every other light Red. In
      paired mode those lights are the slot's light and the one opposite it. */
  lemma TurnShowsOnlyActiveSlot(c: Config, s: State)
    requires Inv(c, s) && !s.stopped
    ensures |Shown(c, s)| == 2
    ensures forall i :: 0 <= i < 4 ==>
      && Shown(c, s)[0][i] == (if i in ActiveLights(c, s) then Green else Red)
      && Shown(c, s)[1][i] == (if i in ActiveLights(c, s) then Yellow else Red)
    ensures |Shown(c, s)[0]| == 4 && |Shown(c, s)[1]| == 4
    ensures c.priority[s.active].id in ActiveLights(c, s)
    ensures |ActiveLights(c, s)| == (if c.paired then 2 else 1)
  {
    var id := c.priority[s.active].id;
    if c.paired {
      assert Opposite(id) != id;
      assert |{id, Opposite(id)}| == 2;
    }
  }

  /** The workers in `ks`, one after another, each pass their wait and take a turn. */
  ghost predicate Admissible(c: Config, s: State, ks: seq<int>)
    requires Inv(c, s)
    decreases |ks|
  {
    ks == [] || (Acts(s, ks[0]) && Admissible(c, Step(c, s), ks[1..]))
  }

  /** The state after the turns of `ks`. */
  function After(c: Config, s: State, ks: seq<int>): (r: State)
    requires Inv(c, s) && Admissible(c, s, ks)
    ensures Inv(c, r)
    decreases |ks|
  {
    if ks == [] then s else After(c, Step(c, s), ks[1..])
  }

  /** The slot indices 0, 1, ..., n-1. */
  function Range(n: nat): seq<int>
  {
    seq(n, i => i)
  }

  /** The light ids of the slots, in planned order. */
  function SlotIds(c: Config): seq<int>
    requires c.Wellformed()
  {
    seq(c.Slots(), k requires 0 <= k < c.Slots() => c.priority[k].id)
  }

  /** Four lights that are all Red are the all-Red display. */
  lemma AllRedIsFourReds(lights: seq<Color>)
    requires |lights| == 4 && AllRed(lights)
    ensures lights == [Red, Red, Red, Red]
  {
  }

  /** From a running state whose active slot is j, the only turns that can happen
      are those of slots j, j+1, ... in order; the run stops exactly when the
      last slot has had its turn. */
  lemma {:induction false} RunFrom(c: Config, s: State, ks: seq<int>)
    requires Inv(c, s) && !s.stopped && Admissible(c, s, ks)
    ensures s.active + |ks| <= c.Slots()
    ensures forall i :: 0 <= i < |ks| ==> ks[i] == s.active + i
    ensures After(c, s, ks) ==
      if s.active + |ks| == c.Slots() then Final() else State(s.lights, s.active + |ks|, 0, false)
    decreases |ks|
  {
    AllRedIsFourReds(s.lights);
    if ks != [] {
      var next := Step(c, s);
      if next.stopped {
        assert ks == [s.active];
      } else {
        RunFrom(c, next, ks[1..]);
        forall i | 0 <= i < |ks| ensures ks[i] == s.active + i {
          if i > 0 {
            assert ks[i] == ks[1..][i - 1];
          }
        }
      }
    }
  }

  /** From the initial state the turns happen in planned order, each slot at most
      once; while the run goes on the next slot's worker can always proceed, and
      after the last slot's turn the run is stopped with all lights Red. */
  lemma RunFromInit(c: Config, ks: seq<int>)
    requires c.Wellformed() && Admissible(c, Init(), ks)
    ensures |ks| <= c.Slots() && forall i :: 0 <= i < |ks| ==> ks[i] == i
    ensures After(c, Init(), ks).stopped <==> |ks| == c.Slots()
    ensures |ks| == c.Slots() ==> After(c, Init(), ks) == Final()
    ensures |ks| < c.Slots() ==> Acts(After(c, Init(), ks), |ks|)
  {
    RunFrom(c, Init(), ks);
  }

  /** The turns of slots j, j+1, ..., up to the last one, can all happen in order. */
  lemma {:induction false} RestOfRotationAdmissible(c: Config, s: State)
    requires Inv(c, s) && !s.stopped
    ensures Admissible(c, s, seq(c.Slots() - s.active, i => s.active + i))
    decreases c.Slots() - s.active
  {
    var ks := seq(c.Slots() - s.active, i => s.active + i);
    var next := Step(c, s);
    if !next.stopped {
      RestOfRotationAdmissible(c, next);
      assert ks[1..] == seq(c.Slots() - next.active, i => next.active + i);
    } else {
      assert ks[1..] == [];
    }
  }

  /** One full rotation in planned order can run from the initial state, and it ends stopped. */
  lemma FullRotation(c: Config)
    requires c.Wellformed()
    ensures Admissible(c, Init(), Range(c.Slots()))
    ensures After(c, Init(), Range(c.Slots())) == Final()
  {
    RestOfRotationAdmissible(c, Init());
    assert seq(c.Slots() - 0, i => 0 + i) == Range(c.Slots());
    RunFromInit(c, Range(c.Slots()));
  }

  /** Once the stop flag is set every worker's wait returns and it leaves its loop. */
  lemma StoppedReleasesAll(s: State, k: int)
    requires s.stopped
    ensures MayProceed(s, k) && !Acts(s, k)
  {
  }
}
