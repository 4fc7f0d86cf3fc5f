/** The rules of the walking model as functions over a state value: how a
    free animal moves, how it joins or founds a group, how a group moves as
    one body, one scheduler tick, and the initial placement.

    Randomness is a stream of naturals, the outputs of the model's single
    random source still to come. A choice among k options consumes the next
    output and takes it modulo k; a draw of an integer in [0, n) does the
    same with n. The two rejection loops of the model (a free move, the
    initial placement) consume draws until they succeed; when the stream
    ends first the run is Stalled, which stands for the point where the
    model would still be sampling. */
module Rules {
  import opened Torus

  datatype Option<T> = None | Some(value: T)

  /** The group an animal belongs to: none yet, or the group with a number. */
  datatype Membership = Free | Member(id: nat)

  /** The number of animals the model places, whatever size it is given. */
  const AgentCount: nat := 40

  /** The displacements a group may be given in one tick. */
  const Moves: seq<Vec> := [Vec(0, 0), Vec(1, 0), Vec(0, 1), Vec(1, 1)]

  /** The model's state: the position and membership of every animal,
      indexed by the animal's place in the schedule, the counter of groups
      founded so far, and the random outputs still to come. */
  datatype Sim = Sim(pos: seq<Cell>, group: seq<Membership>, groups: nat, rng: seq<nat>)

  /** What running an operation yields: the new state, or the state reached
      when the random stream ran out inside a rejection loop. */
  datatype Run = Done(sim: Sim) | Stalled(sim: Sim)

  /** Every animal is on the grid and every group number lies in 1..groups. */
  predicate WellFormed(g: Grid, s: Sim) {
    ValidGrid(g) && |s.group| == |s.pos| &&
    (forall i :: 0 <= i < |s.pos| ==> Contains(g, s.pos[i])) &&
    (forall i :: 0 <= i < |s.group| && s.group[i].Member? ==> 1 <= s.group[i].id <= s.groups)
  }

  /** The option selected by the random output `d`. */
  function Pick<T>(options: seq<T>, d: nat): (r: T)
    requires |options| > 0
    ensures r in options
  {
    options[d % |options|]
  }

  /** The animals standing on cell `c`, in schedule order. */
  function AgentsAt(pos: seq<Cell>, c: Cell): (r: seq<nat>)
    ensures forall k :: 0 <= k < |r| ==> r[k] < |pos| && pos[r[k]] == c
    ensures forall i :: 0 <= i < |pos| && pos[i] == c ==> i in r
    ensures forall k, l :: 0 <= k < l < |r| ==> r[k] < r[l]
  {
    if pos == [] then []
    else AgentsAt(pos[..|pos| - 1], c) + (if pos[|pos| - 1] == c then [|pos| - 1] else [])
  }

  /** The animals standing on any of `cells`, cell by cell. */
  function Occupants(pos: seq<Cell>, cells: seq<Cell>): (r: seq<nat>)
    ensures forall k :: 0 <= k < |r| ==> r[k] < |pos| && pos[r[k]] in cells
    ensures forall i :: 0 <= i < |pos| && pos[i] in cells ==> i in r
  {
    if cells == [] then [] else AgentsAt(pos, cells[0]) + Occupants(pos, cells[1..])
  }

  /** The animals in the von Neumann neighbourhood of `c`, in the order the
      grid reports them. */
  function Neighbours(g: Grid, pos: seq<Cell>, c: Cell): (r: seq<nat>)
    requires ValidGrid(g)
    ensures forall k :: 0 <= k < |r| ==> r[k] < |pos|
  {
    Occupants(pos, Neighbourhood(g, c))
  }

  /** The rejection loop of a free move: the index of the first random
      output that selects an empty cell among `cands`, if the stream holds one. */
  function FirstFreeDraw(cands: seq<Cell>, pos: seq<Cell>, rng: seq<nat>): (r: Option<nat>)
    requires |cands| > 0
    ensures r.Some? ==> r.value < |rng| && Pick(cands, rng[r.value]) !in pos
    ensures r.Some? ==> forall j :: 0 <= j < r.value ==> Pick(cands, rng[j]) in pos
    ensures r.None? ==> forall j :: 0 <= j < |rng| ==> Pick(cands, rng[j]) in pos
  {
    if rng == [] then None
    else if Pick(cands, rng[0]) !in pos then Some(0)
    else match FirstFreeDraw(cands, pos, rng[1..])
      case None => None
      case Some(k) => Some(k + 1)
  }

  /** A free move of animal `a`: to a randomly chosen empty cell of its
      neighbourhood, drawing again while the chosen cell is occupied. */
  function Move(g: Grid, s: Sim, a: nat): (r: Run)
    requires ValidGrid(g) && a < |s.pos|
    ensures r.sim.group == s.group && r.sim.groups == s.groups && |r.sim.pos| == |s.pos|
    ensures forall k :: 0 <= k < |s.pos| && k != a ==> r.sim.pos[k] == s.pos[k]
    ensures r.Done? ==> r.sim.pos[a] in Neighbourhood(g, s.pos[a]) && r.sim.pos[a] !in s.pos
    ensures r.Done? ==> |r.sim.rng| < |s.rng| && r.sim.rng == s.rng[|s.rng| - |r.sim.rng|..]
    ensures (forall d :: d in Neighbourhood(g, s.pos[a]) ==> d in s.pos) ==> r.Stalled?
    ensures r.Stalled? ==> r.sim.pos == s.pos && r.sim.rng == []
  {
    var cands := Neighbourhood(g, s.pos[a]);
    match FirstFreeDraw(cands, s.pos, s.rng)
    case None => Stalled(s.(rng := []))
    case Some(k) => Done(s.(pos := s.pos[a := Pick(cands, s.rng[k])], rng := s.rng[k + 1..]))
  }

  /** One pass of the neighbour loop: animal `a` meets animal `i`. A free
      `i` founds a new group with `a`; otherwise `a` takes `i`'s group. */
  function Visit(s: Sim, a: nat, i: nat): (r: Sim)
    requires a < |s.group| && i < |s.group|
    ensures |r.group| == |s.group| && r.pos == s.pos && r.rng == s.rng
    ensures r.group[a] == r.group[i] && r.group[a].Member?
    ensures s.group[i] == Free ==>
      r.group[a] == Member(s.groups + 1) && r.groups == s.groups + 1 &&
      forall k :: 0 <= k < |s.group| && k != a && k != i ==> r.group[k] == s.group[k]
    ensures s.group[i].Member? ==>
      r.group[a] == s.group[i] && r.groups == s.groups &&
      forall k :: 0 <= k < |s.group| && k != a ==> r.group[k] == s.group[k]
  {
    if s.group[i] == Free then
      var founded := Member(s.groups + 1);
      s.(group := s.group[a := founded][i := founded], groups := s.groups + 1)
    else
      s.(group := s.group[a := s.group[i]])
  }

  /** The neighbour loop of animal `a` over `nbrs`, in order. */
  function Scan(s: Sim, a: nat, nbrs: seq<nat>): (r: Sim)
    requires a < |s.group| && forall k :: 0 <= k < |nbrs| ==> nbrs[k] < |s.group|
    ensures |r.group| == |s.group| && r.pos == s.pos && r.rng == s.rng && r.groups >= s.groups
    decreases |nbrs|
  {
    if nbrs == [] then s else Scan(Visit(s, a, nbrs[0]), a, nbrs[1..])
  }

  /** An animal's step: with a displacement, a shift by it; without one, a
      free move followed by the neighbour loop at the new position. */
  function Step(g: Grid, s: Sim, a: nat, v: Option<Vec>): (r: Run)
    requires ValidGrid(g) && a < |s.pos| && |s.group| == |s.pos|
    ensures |r.sim.pos| == |s.pos| && |r.sim.group| == |s.group|
    ensures v.Some? ==> r.Done? && r.sim.group == s.group && r.sim.groups == s.groups && r.sim.rng == s.rng
    ensures v.Some? ==> forall k :: 0 <= k < |s.pos| ==>
      r.sim.pos[k] == if k == a then Shift(g, s.pos[a], v.value) else s.pos[k]
  {
    match v
    case Some(d) => Done(s.(pos := s.pos[a := Shift(g, s.pos[a], d)]))
    case None =>
      match Move(g, s, a)
      case Stalled(t) => Stalled(t)
      case Done(t) => Done(Scan(t, a, Neighbours(g, t.pos, t.pos[a])))
  }

  /** Phase 1 of a tick from schedule position `k` on: every animal that is
      free when it is reached takes a step without a displacement. */
  function Phase1(g: Grid, s: Sim, k: nat): (r: Run)
    requires ValidGrid(g) && |s.group| == |s.pos|
    ensures |r.sim.pos| == |s.pos| && |r.sim.group| == |s.group|
    decreases |s.pos| - k
  {
    if k >= |s.pos| then Done(s)
    else if s.group[k].Member? then Phase1(g, s, k + 1)
    else match Step(g, s, k, None)
      case Stalled(t) => Stalled(t)
      case Done(t) => Phase1(g, t, k + 1)
  }

  /** Every member of group `id` shifted by `v`; nobody else moves. */
  function MoveGroup(g: Grid, s: Sim, id: nat, v: Vec): (r: Sim)
    requires ValidGrid(g) && |s.group| == |s.pos|
    ensures |r.pos| == |s.pos| && r.group == s.group && r.groups == s.groups && r.rng == s.rng
  {
    s.(pos := seq(|s.pos|, i requires 0 <= i < |s.pos| =>
                    if s.group[i] == Member(id) then Shift(g, s.pos[i], v) else s.pos[i]))
  }

  /** Phase 2 of a tick from group `id` on: each group below the counter
      draws one displacement and all its members take it. */
  function Phase2(g: Grid, s: Sim, id: nat): (r: Run)
    requires ValidGrid(g) && |s.group| == |s.pos|
    ensures |r.sim.pos| == |s.pos| && r.sim.group == s.group && r.sim.groups == s.groups
    decreases s.groups - id
  {
    if id >= s.groups then Done(s)
    else if s.rng == [] then Stalled(s)
    else Phase2(g, MoveGroup(g, s.(rng := s.rng[1..]), id, Pick(Moves, s.rng[0])), id + 1)
  }

  /** One scheduler tick: phase 1, then phase 2 over groups 1 up to but
      excluding the counter as phase 1 left it. */
  function Tick(g: Grid, s: Sim): (r: Run)
    requires ValidGrid(g) && |s.group| == |s.pos|
    ensures |r.sim.pos| == |s.pos| && |r.sim.group| == |s.group|
  {
    match Phase1(g, s, 0)
    case Stalled(t) => Stalled(t)
    case Done(t) => Phase2(g, t, 1)
  }

  /** The cell selected by the next two random outputs, as x then y. */
  function DrawCell(g: Grid, rng: seq<nat>): (r: Cell)
    requires ValidGrid(g) && |rng| >= 2
    ensures Contains(g, r)
  {
    Cell(Mod(rng[0], g.width), Mod(rng[1], g.height))
  }

  /** The initial placement: a cell is drawn for each animal in turn, and
      drawn again while it is already taken. Returns the cells placed and
      the random outputs left. */
  function Place(g: Grid, placed: seq<Cell>, rng: seq<nat>): (r: (seq<Cell>, seq<nat>))
    requires ValidGrid(g) && Distinct(placed) && |placed| <= AgentCount
    requires forall c :: c in placed ==> Contains(g, c)
    ensures Distinct(r.0) && |placed| <= |r.0| <= AgentCount && r.0[..|placed|] == placed
    ensures forall c :: c in r.0 ==> Contains(g, c)
    ensures |r.0| < AgentCount ==> |r.1| < 2
    ensures |r.1| <= |rng| && r.1 == rng[|rng| - |r.1|..]
    decreases |rng|
  {
    if |placed| == AgentCount || |rng| < 2 then (placed, rng)
    else
      var c := DrawCell(g, rng);
      Place(g, if c in placed then placed else placed + [c], rng[2..])
  }

  /** `n` animals, none of them in a group. */
  function AllFree(n: nat): (r: seq<Membership>)
    ensures |r| == n && forall i :: 0 <= i < n ==> r[i] == Free
  {
    seq(n, _ => Free)
  }

  /** The state a model of the given size starts in: the placed animals,
      all free, and the counter at zero. The run is stalled when the random
      outputs ran out before 40 animals were placed, the point where the
      program would still be drawing cells. */
  function Initial(size: nat, rng: seq<nat>): (r: Run)
    requires size > 0
    ensures WellFormed(Grid(size, size), r.sim) && Distinct(r.sim.pos) && r.sim.groups == 0
    ensures forall i :: 0 <= i < |r.sim.group| ==> r.sim.group[i] == Free
    ensures |r.sim.pos| <= AgentCount && (r.Done? <==> |r.sim.pos| == AgentCount)
    ensures r.Stalled? ==> |r.sim.rng| < 2
  {
    var placement := Place(Grid(size, size), [], rng);
    var s := Sim(placement.0, AllFree(|placement.0|), 0, placement.1);
    if |placement.0| == AgentCount then Done(s) else Stalled(s)
  }
}
