/** The walking model as the program runs it: one object holding every
    animal's position and group, the scheduler's group counter and the
    random source, with the animal and scheduler operations as methods that
    update it in place. Each method is proved to produce the state that the
    corresponding rule in `Rules` describes. */
module Walking {
  import opened Torus
  import opened Rules
  import opened Properties

  class WalkingModel {
    /** The torus, as wide and as high as the size the model was built with. */
    const grid: Grid
    /** Position of each animal, indexed by its place in the schedule. */
    var pos: seq<Cell>
    /** Group of each animal, indexed likewise. */
    var group: seq<Membership>
    /** The scheduler's counter: the number of groups founded so far. */
    var groups: nat
    /** The random outputs still to come. */
    var rng: seq<nat>
    /** Whether the placement finished: false when the random outputs ran
        out first, where the program would still be drawing cells. */
    const complete: bool

    function State(): Sim
      reads this
    {
      Sim(pos, group, groups, rng)
    }

    ghost predicate Valid()
      reads this
    {
      WellFormed(grid, State())
    }

    /** Builds a `size` by `size` torus and places the animals one after the
        other, each on a drawn cell, drawing again while the cell is taken.
        All animals start free and the counter starts at zero. */
    constructor (size: nat, draws: seq<nat>)
      requires size > 0
      ensures Valid() && grid == Grid(size, size)
      ensures complete == Initial(size, draws).Done?
      ensures State() == Initial(size, draws).sim
    {
      var g := Grid(size, size);
      var cells, rest := PlaceAnimals(g, draws);
      InitialFrom(size, draws, cells, rest);
      grid := g;
      pos := cells;
      group := AllFree(|cells|);
      groups := 0;
      rng := rest;
      complete := |cells| == AgentCount;
    }

    /** Moves animal `a` to an empty cell of its neighbourhood, chosen at
        random and chosen again while the chosen cell is occupied. Reports
        false when the random outputs ran out first. */
    method Move(a: nat) returns (moved: bool)
      requires Valid() && a < |pos|
      modifies this
      ensures Valid()
      ensures moved == Rules.Move(grid, old(State()), a).Done?
      ensures State() == Rules.Move(grid, old(State()), a).sim
    {
      var cands := Neighbourhood(grid, pos[a]);
      var k := FirstFree(cands, pos, rng);
      if k == |rng| {
        rng := [];
        moved := false;
      } else {
        var c := Pick(cands, rng[k]);
        assert Contains(grid, c);
        pos := pos[a := c];
        rng := rng[k + 1..];
        moved := true;
      }
    }

    /** One step of animal `a`. With a displacement the animal is shifted by
        it. Without one it moves freely and then meets every animal around
        its new cell in turn: a free neighbour founds a new group with it,
        a grouped one passes its group on. Reports false when the free move
        ran out of random outputs. */
    method Step(a: nat, v: Option<Vec>) returns (ok: bool)
      requires Valid() && a < |pos|
      modifies this
      ensures Valid()
      ensures ok == Rules.Step(grid, old(State()), a, v).Done?
      ensures State() == Rules.Step(grid, old(State()), a, v).sim
    {
      if v.Some? {
        pos := pos[a := Shift(grid, pos[a], v.value)];
        return true;
      }
      ok := Move(a);
      if !ok {
        return;
      }
      var nbrs := Neighbours(grid, pos, pos[a]);
      MeetAll(a, nbrs);
    }

    /** The neighbour loop: animal `a` meets each animal of `nbrs` in turn. */
    method MeetAll(a: nat, nbrs: seq<nat>)
      requires Valid() && a < |pos|
      requires forall k :: 0 <= k < |nbrs| ==> nbrs[k] < |pos|
      modifies this
      ensures Valid()
      ensures State() == Scan(old(State()), a, nbrs)
    {
      ghost var start := State();
      for k := 0 to |nbrs|
        invariant Valid() && pos == start.pos && rng == start.rng
        invariant Scan(State(), a, nbrs[k..]) == Scan(start, a, nbrs)
      {
        ScanFrom(State(), a, nbrs, k);
        Meet(a, nbrs[k]);
      }
    }

    /** The body of the neighbour loop: animal `a` meets animal `i`. If `i`
        is free, both join a newly numbered group and the counter goes up;
        otherwise `a` takes `i`'s group. */
    method Meet(a: nat, i: nat)
      requires Valid() && a < |pos| && i < |pos|
      modifies this
      ensures Valid()
      ensures State() == Visit(old(State()), a, i)
    {
      VisitWellFormed(grid, State(), a, i);
      if group[i] == Free {
        group := group[a := Member(groups + 1)][i := Member(groups + 1)];
        groups := groups + 1;
      } else {
        group := group[a := group[i]];
      }
    }

    /** One scheduler tick. Phase 1 steps, in schedule order, every animal
        that is free when it is reached. Phase 2 takes the groups from 1 up
        to but excluding the counter; for each it draws one displacement and
        shifts every member by it. Reports false when a free move ran out
        of random outputs, or phase 2 did. */
    method Tick() returns (ok: bool)
      requires Valid()
      modifies this
      ensures Valid()
      ensures ok == Rules.Tick(grid, old(State())).Done?
      ensures State() == Rules.Tick(grid, old(State())).sim
    {
      ok := FreePhase();
      if ok {
        ok := GroupPhase();
      }
    }

    /** Phase 1 of a tick: every animal that is free when the schedule
        reaches it takes a step without a displacement. */
    method FreePhase() returns (ok: bool)
      requires Valid()
      modifies this
      ensures Valid()
      ensures ok == Phase1(grid, old(State()), 0).Done?
      ensures State() == Phase1(grid, old(State()), 0).sim
    {
      ghost var start := State();
      for k := 0 to |pos|
        invariant Valid() && |pos| == |start.pos|
        invariant Phase1(grid, State(), k) == Phase1(grid, start, 0)
      {
        if group[k] == Free {
          Phase1AtFree(grid, State(), k);
          ok := Step(k, None);
          if !ok {
            return;
          }
        }
      }
      ok := true;
    }

    /** Phase 2 of a tick: for the groups from 1 up to but excluding the
        counter, one displacement is drawn per group and every member is
        shifted by it. */
    method GroupPhase() returns (ok: bool)
      requires Valid()
      modifies this
      ensures Valid()
      ensures ok == Phase2(grid, old(State()), 1).Done?
      ensures State() == Phase2(grid, old(State()), 1).sim
    {
      ghost var start := State();
      var id := 1;
      while id < groups
        invariant Valid() && id >= 1
        invariant Phase2(grid, State(), id) == Phase2(grid, start, 1)
        decreases groups - id
      {
        if rng == [] {
          return false;
        }
        var v := Pick(Moves, rng[0]);
        rng := rng[1..];
        ShiftGroup(id, v);
        id := id + 1;
      }
      ok := true;
    }

    /** Shifts every member of group `id`, in schedule order, by `v`. */
    method ShiftGroup(id: nat, v: Vec)
      requires Valid()
      modifies this
      ensures Valid()
      ensures State() == MoveGroup(grid, old(State()), id, v)
    {
      ghost var start := State();
      for k := 0 to |pos|
        invariant Valid() && |pos| == |start.pos|
        invariant group == start.group && groups == start.groups && rng == start.rng
        invariant forall i :: 0 <= i < k ==> pos[i] == MoveGroup(grid, start, id, v).pos[i]
        invariant forall i :: k <= i < |pos| ==> pos[i] == start.pos[i]
      {
        if group[k] == Member(id) {
          var _ := Step(k, Some(v));
        }
      }
    }
  }

  /** The initial state, written in terms of the placement the constructor
      computes. */
  lemma InitialFrom(size: nat, draws: seq<nat>, cells: seq<Cell>, rest: seq<nat>)
    requires size > 0 && (cells, rest) == Place(Grid(size, size), [], draws)
    ensures Initial(size, draws).sim == Sim(cells, AllFree(|cells|), 0, rest)
    ensures Initial(size, draws).Done? <==> |cells| == AgentCount
    ensures WellFormed(Grid(size, size), Sim(cells, AllFree(|cells|), 0, rest))
  {
  }

  /** The rejection loop of a free move: scans the random outputs for the
      first one that selects an empty cell among `cands`, and returns its
      index, or the length of `rng` when every output selects an occupied
      cell. */
  method FirstFree(cands: seq<Cell>, pos: seq<Cell>, rng: seq<nat>) returns (k: nat)
    requires |cands| > 0
    ensures k <= |rng|
    ensures FirstFreeDraw(cands, pos, rng) == if k == |rng| then None else Some(k)
  {
    k := 0;
    while k < |rng| && Pick(cands, rng[k]) in pos
      invariant k <= |rng|
      invariant forall j :: 0 <= j < k ==> Pick(cands, rng[j]) in pos
      decreases |rng| - k
    {
      k := k + 1;
    }
    FirstFreeDrawAt(cands, pos, rng, k);
  }

  /** The placement loop of the constructor: for each animal in turn, cells
      are drawn until an empty one comes up. Returns the cells and the
      random outputs left. */
  method PlaceAnimals(g: Grid, draws: seq<nat>) returns (cells: seq<Cell>, rest: seq<nat>)
    requires ValidGrid(g)
    ensures (cells, rest) == Place(g, [], draws)
  {
    cells, rest := [], draws;
    while |cells| < AgentCount
      invariant Distinct(cells) && |cells| <= AgentCount
      invariant forall c :: c in cells ==> Contains(g, c)
      invariant Place(g, cells, rest) == Place(g, [], draws)
      decreases AgentCount - |cells|
    {
      while |rest| >= 2 && DrawCell(g, rest) in cells
        invariant Place(g, cells, rest) == Place(g, [], draws)
        decreases |rest|
      {
        rest := rest[2..];
      }
      if |rest| < 2 {
        break;
      }
      cells := cells + [DrawCell(g, rest)];
      rest := rest[2..];
    }
  }
}
