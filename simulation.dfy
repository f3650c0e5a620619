/** The running simulation: the shared intersection state that the workers
    update under the lock, one worker's turn, the run of all workers, and the
    flow of `main` from the counts to the end of the run. */
module Simulation {
  import opened Planner
  import opened Rotation

  /** The shared state of the workers, with the planned list and mode it was started with. */
  class Intersection {
    /** The planned (light id, car count) list. */
    const priority: seq<Entry>
    /** Two opposing lights per slot instead of one. */
    const paired: bool
    /** The colour of each of the four lights. */
    var lights: seq<Color>
    /** The slot of the planned list whose worker may take its turn. */
    var active: int
    /** Completed passes through the planned list. */
    var cycles: int
    /** Set once the first pass is complete; never cleared. */
    var stopped: bool

    /** The planned list and the mode, as the rotation's configuration. */
    function Cfg(): Config
    {
      Config(priority, paired)
    }

    /** The shared fields, as a rotation state. */
    function Shared(): State
      reads this
    {
      State(lights, active, cycles, stopped)
    }

    ghost predicate Valid()
      reads this
    {
      Inv(Cfg(), Shared())
    }

    /** The state before the workers start: all Red, slot 0 active, not stopped. */
    constructor (priority: seq<Entry>, paired: bool)
      requires Config(priority, paired).Wellformed()
      ensures this.priority == priority && this.paired == paired
      ensures Valid() && Shared() == Init()
    {
      this.priority := priority;
      this.paired := paired;
      lights := [Red, Red, Red, Red];
      active := 0;
      cycles := 0;
      stopped := false;
    }

    /** Sets the light `id` (and, in paired mode, the light opposite it) to `c`. */
    method SetColor(id: int, c: Color)
      requires |lights| == 4 && 0 <= id < 4
      modifies this`lights
      ensures lights == Paint(old(lights), LightsOf(id, paired), c)
    {
      if paired {
        lights := lights[id := c];
        lights := lights[Opposite(id) := c];
      } else {
        lights := lights[id := c];
      }
    }

    /** One pass of worker k's loop, entered once its wait has returned: if the
        run is stopped the worker leaves (acted is false, nothing changes);
        otherwise it drives its slot's lights Green, Yellow and Red, returns the
        two snapshots it displays, and hands the turn to the next slot. */
    method Turn(k: int) returns (acted: bool, shown: seq<seq<Color>>)
      requires Valid()
      requires MayProceed(Shared(), k)
      modifies this
      ensures Valid()
      ensures acted <==> !old(stopped)
      ensures !acted ==> Shared() == old(Shared()) && shown == []
      ensures acted ==> Shared() == Step(Cfg(), old(Shared())) && shown == Shown(Cfg(), old(Shared()))
    {
      if stopped {
        return false, [];
      }
      acted := true;
      var id := priority[k].id;
      SetColor(id, Green);
      var green := lights;
      SetColor(id, Yellow);
      shown := [green, lights];
      SetColor(id, Red);
      if paired {
        active := (active + 1) % 2;
      } else {
        active := (active + 1) % 4;
      }
      if active == 0 {
        cycles := cycles + 1;
        if cycles == 1 {
          stopped := true;
        }
      }
    }

    /** The workers run from the initial state until they have all left their
        loops. The lock serialises their turns, and at any moment the one worker
        that can proceed is the active slot's; so the run is that worker taking
        its turn until the stop flag is set. `lit` holds the light id of each
        slot, in the order the slots took their turns; `shown` holds, per turn,
        the two snapshots displayed, in which only that slot's lights are not Red. */
    method Run() returns (lit: seq<int>, shown: seq<seq<seq<Color>>>)
      requires Valid() && Shared() == Init()
      modifies this
      ensures Valid() && Shared() == Final()
      ensures lit == SlotIds(Cfg())
      ensures |shown| == Cfg().Slots()
      ensures forall k :: 0 <= k < |shown| ==> |shown[k]| == 2 && |shown[k][0]| == 4 && |shown[k][1]| == 4
      ensures forall k, i :: 0 <= k < |shown| && 0 <= i < 4 ==>
        && shown[k][0][i] == (if i in LightsOf(priority[k].id, paired) then Green else Red)
        && shown[k][1][i] == (if i in LightsOf(priority[k].id, paired) then Yellow else Red)
    {
      lit, shown := [], [];
      while !stopped
        invariant Valid()
        invariant |lit| <= Cfg().Slots()
        invariant lit == SlotIds(Cfg())[..|lit|]
        invariant |shown| == |lit|
        invariant !stopped ==> active == |lit| && cycles == 0
        invariant stopped ==> |lit| == Cfg().Slots()
        invariant forall k :: 0 <= k < |shown| ==> |shown[k]| == 2 && |shown[k][0]| == 4 && |shown[k][1]| == 4
        invariant forall k, i :: 0 <= k < |shown| && 0 <= i < 4 ==>
          && shown[k][0][i] == (if i in LightsOf(priority[k].id, paired) then Green else Red)
          && shown[k][1][i] == (if i in LightsOf(priority[k].id, paired) then Yellow else Red)
        decreases Cfg().Slots() - |lit|
      {
        var k := active;
        TurnShowsOnlyActiveSlot(Cfg(), Shared());
        var acted, snapshots := Turn(k);
        lit := lit + [priority[k].id];
        shown := shown + [snapshots];
      }
      AllRedIsFourReds(lights);
    }
  }

  /** Paired mode: the list planned from the counts is well formed and its two
      slots start with the heavier pair's first light, West exactly when
      West-East has more cars. */
  lemma PairedSlots(counts: seq<int>)
    requires |counts| == 4
    ensures var c := Config(PairedOrder(Initial(counts)), true);
      && c.Wellformed()
      && SlotIds(c) == (if counts[1] + counts[3] > counts[0] + counts[2] then [1, 0] else [0, 1])
  {
    PairedOrderOfInitial(counts);
  }

  /** Single mode: a list sorted from the counts is well formed and its four
      slots are the lights in the single-mode rotation order. */
  lemma SingleSlots(counts: seq<int>, planned: seq<Entry>)
    requires |counts| == 4
    requires Sorted(planned) && multiset(planned) == multiset(Initial(counts))
    ensures Config(planned, false).Wellformed()
    ensures SingleModeOrder(counts, SlotIds(Config(planned, false)))
  {
    SingleOrderOfInitial(counts, planned);
    assert SlotIds(Config(planned, false)) == Ids(planned);
  }

  /** The flow of `main` after input: build the list, plan, and if any car is
      waiting start the workers and wait for them. Returns the light id of each
      slot, in the order the slots took their turns; empty when there is no
      traffic. */
  method Simulate(counts: seq<int>, paired: bool) returns (lit: seq<int>)
    requires |counts| == 4
    ensures lit == [] <==> NoTraffic(Initial(counts))
    ensures lit != [] && paired ==>
      lit == (if counts[1] + counts[3] > counts[0] + counts[2] then [1, 0] else [0, 1])
    ensures lit != [] && !paired ==> SingleModeOrder(counts, lit)
  {
    var a := new Entry[4](i requires 0 <= i < 4 => Entry(i, counts[i]));
    assert a[..] == Initial(counts);
    var run := Plan(a, paired);
    if !run {
      return [];
    }
    var planned := a[..];
    if paired {
      PairedSlots(counts);
    } else {
      SingleSlots(counts, planned);
    }
    var intersection := new Intersection(planned, paired);
    var shown;
    lit, shown := intersection.Run();
  }
}
