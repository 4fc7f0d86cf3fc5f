# Predator-prey walking model in Dafny

This project models the agent-based "walking model" of Predator-Prey-mesa
(`model.py`). Forty animals live on a square torus as wide as the size the
model is built with. At every scheduler tick, each animal that has no group
yet takes a free step:

- It moves to a random empty orthogonal neighbour cell. The cell is chosen
  again while the chosen one is taken.
- It then meets every animal around its new cell:
  - A neighbour without a group founds a new group with it. The new group
    is numbered one above the scheduler's counter, and the counter goes up.
  - A neighbour with a group passes that group on to it.
  - The last neighbour met decides the animal's group.

After that, the groups numbered from 1 up to, but excluding, the counter
each draw one displacement from {(0,0), (1,0), (0,1), (1,1)}. All members
of the group are shifted by it, wrapping at the edges.

The project has four modules:

- `Torus` (`torus.dfy`): the grid, wrap-around, displacement, and the von
  Neumann neighbourhood.
- `Rules` (`rules.dfy`): every operation as a function over a state value
  `Sim`. The state holds each animal's position and group, the group
  counter, and the random outputs still to come.
- `Properties` (`properties.dfy`): what the operations promise, as lemmas
  over those functions.
- `Walking` (`walking.dfy`): the model as the program runs it. The class
  `WalkingModel` holds the positions, groups, counter and random stream as
  fields, and its methods update them in place. Each method is proved to
  reach exactly the state the matching function in `Rules` describes.

Randomness is one stream of natural numbers. A choice among k options
consumes the next output modulo k. A draw of an integer in [0, n) consumes
the next output modulo n. The two rejection loops (the free move and the
initial placement) consume outputs until they succeed. When the stream
ends first, they stop early. This stands for the point where the program
would still be sampling. No claim is made that those loops terminate.

- A free move that runs out reports `Stalled`. So do the step, phase 1 and
  the tick that contain it.
- A placement that runs out stops with fewer than 40 animals placed.
  `Initial` then returns a `Stalled` run holding that partial state. The
  constructor of `WalkingModel` still returns, with its `complete` field
  false. The program itself would never return from its constructor.
  Ticks of such an object describe no run of the program.
- Phase 2 draws one displacement per group. When the stream is empty at
  that point, phase 2 (`Rules.Phase2`, `WalkingModel.GroupPhase`) and the
  tick report `Stalled` too. In the program that choice always returns, so
  this stall comes only from the finite stream.

The animals' positions decide which cells are occupied. The program stores
occupancy in the grid library's own cell table, which is not part of this
model.

Phase 2 runs over groups 1 up to, but excluding, the counter. So the most
recently founded group never moves as a group in the tick that founded it.
The model keeps this boundary exactly as written, and `NewestGroupStays`
states it.

The program places 40 animals whatever its size argument, and the grid is
as wide and as high as that argument. The model does the same, except that
it stops early when the stream runs out, as described above. When the size
squared is below 40, the placement loop cannot succeed. `SmallGridStalls`
proves that the model's placement then never completes, whatever the random
outputs.

## Model

| member | source | states |
|---|---|---|
| Torus.Mod | model.py:61 | helper: Python's `%` for a positive modulus; the result lies in [0, n), is the identity on [0, n), and sends -1 to n-1 and n to 0 |
| Torus.Wrap | model.py:61 | the torus adjustment puts every cell on the grid and leaves on-grid cells alone |
| Torus.Shift | model.py:36 | a displaced cell, wrapped, always lies on the grid |
| Torus.Around | model.py:17 | helper: the four orthogonal cells, wrapped, in enumeration order |
| Torus.Neighbourhood | model.py:17 | the von Neumann neighbourhood holds one to four distinct on-grid cells, exactly the set of the four orthogonal cells, starting with the cell above; the full order is stated by NeighbourhoodWhenDistinct |
| Torus.ShiftUnit | model.py:36 | a unit displacement moves a coordinate by one and falls off one edge onto the opposite one (x = width-1 shifted by (1,0) lands on x = 0) |
| Torus.NeighbourhoodWhenDistinct | model.py:17 | when the four orthogonal cells are pairwise distinct, the neighbourhood is exactly those four in enumeration order: above, left, right, below |
| Torus.NeighbourhoodOfFour | model.py:17 | on a grid at least 3 by 3 the neighbourhood is the four orthogonal cells in enumeration order |
| Rules.Pick | model.py:19 | a random choice returns one of the options offered |
| Rules.AgentsAt | model.py:27 | the animals standing on a cell: sound, complete, in schedule order |
| Rules.Occupants | model.py:27 | the animals standing on any of the given cells: sound and complete |
| Rules.Neighbours | model.py:27 | every reported neighbour is an animal of the model; what the list means is stated by NeighboursExactly |
| Rules.FirstFreeDraw | model.py:18-21 | the rejection loop stops at the first draw that selects an empty cell; every earlier draw selected an occupied one; it finds none only when every draw did |
| Rules.Move | model.py:16-22 | a free move lands on a neighbourhood cell that was empty and changes no group and no other animal; it stalls whenever every neighbourhood cell is occupied, and then nobody moves |
| Rules.Visit | model.py:28-34 | meeting a free neighbour gives both the group numbered one above the counter and raises the counter; meeting a grouped one copies its group; either way the two end up in the same group and nobody else changes |
| Rules.Scan | model.py:27-34 | the neighbour loop changes neither positions nor the random stream, and the counter never goes down |
| Rules.Step | model.py:24-36 | a step with a displacement shifts only the stepping animal by it, wrapped, and changes no group, counter or random output |
| Rules.Phase1 | model.py:45-47 | phase 1 keeps the number of animals |
| Rules.MoveGroup | model.py:50-52 | shifting one group changes no group, counter or random output |
| Rules.Phase2 | model.py:48-52 | phase 2 changes no group and not the counter |
| Rules.Tick | model.py:44-52 | a tick keeps the number of animals |
| Rules.DrawCell | model.py:65-66 | a drawn cell lies on the grid |
| Rules.Place | model.py:63-71 | the placement only adds cells: they are pairwise distinct and on the grid; at most 40 are placed; fewer than 40 only when the stream ran out |
| Rules.AllFree | model.py:14 | every animal starts without a group |
| Rules.Initial | model.py:56-71 | the initial state is well formed: at most 40 animals on distinct on-grid cells, all without a group, the counter at 0; the run completes exactly when 40 animals were placed, and it stalls only when the stream ran out |
| Properties.ScanSnoc | model.py:27-34 | the neighbour loop over one more neighbour is the loop followed by one more meeting |
| Properties.ScanLastWins | model.py:27-34 | last one wins: after the loop the animal is in the group of the last neighbour met, which is a new group if that neighbour was free when met and that neighbour's group otherwise |
| Properties.ScanEvolves | model.py:27-34 | the loop never takes a group away from an animal; it changes the group only of the stepping animal and of free neighbours, so every animal that is neither the stepper nor among the neighbours keeps its group; group numbers stay in 1..counter |
| Properties.ScanFrom | model.py:27-34 | helper for the loop invariant of MeetAll: the loop from position k is one meeting followed by the loop from k+1 |
| Properties.VisitWellFormed | model.py:29-34 | one meeting keeps every group number in 1..counter |
| Properties.ScanCounts | model.py:29-32 | the counter goes up by exactly the number of free neighbours met, at most one per neighbour |
| Properties.NeighboursExactly | model.py:27 | the neighbours reported are exactly the animals on the four orthogonal cells |
| Properties.FirstFreeDrawAt | model.py:18-21 | the rejection loop returns k when the draws before k select occupied cells and draw k selects an empty one |
| Properties.MoveLands | model.py:16-22 | a free move keeps the state well formed, changes no group, and lands on an empty orthogonal neighbour cell |
| Properties.AloneStaysFree | model.py:26-34 | after its free move an animal stays free if and only if nobody stands on any of the four orthogonal cells of its new cell; then the step changes no group and not the counter |
| Properties.ScanAtEvolves | model.py:26-34 | the loop at a free animal's new cell keeps the state well formed and only adds memberships |
| Properties.FreeStepEvolves | model.py:24-34 | a step without a displacement keeps the state well formed, never lowers the counter and never changes a group already held |
| Properties.FreeStepStays | model.py:24-34 | a step without a displacement moves nobody but the stepping animal |
| Properties.Phase1AtFree | model.py:45-47 | helper unfolding one free step of phase 1: phase 1 at a free animal is its step, then the rest of the phase, unless the step stalled |
| Properties.Phase1Evolves | model.py:45-47 | phase 1 keeps the state well formed, never lowers the counter, and never changes a group already held (group ids are permanent) |
| Properties.FreeStepKeeps | model.py:24-34 | a free animal's step leaves every grouped animal in place and in its group |
| Properties.Phase1Skips | model.py:45-47 | phase 1 skips grouped animals: an animal that has a group at any point of phase 1 neither moves nor changes group for the rest of it |
| Properties.FreeStepDistinct | model.py:16-26 | a step without a displacement keeps animals on pairwise distinct cells |
| Properties.Phase1Distinct | model.py:45-47 | phase 1 keeps animals on pairwise distinct cells |
| Properties.Phase2Moves | model.py:48-52 | phase 2 completes exactly when the stream holds one output per group; then each group below the counter moved by one displacement shared by all its members, drawn in group order; free animals and the newest group did not move |
| Properties.TickEvolves | model.py:44-52 | a tick keeps the state well formed, never lowers the counter and never changes a group already held |
| Properties.NewestGroupStays | model.py:48 | in a completed tick, free animals and the group numbered like the counter do not move during phase 2 |
| Properties.FitsOnGrid | model.py:63-68 | pairwise distinct on-grid cells are at most width times height in number |
| Properties.SmallGridStalls | model.py:57-68 | when the size squared is below 40 the initial run is stalled with fewer than 40 animals placed, whatever the random outputs: the placement loop never completes |
| Walking.WalkingModel.constructor | model.py:56-71 | builds the size-by-size torus and reaches exactly the state of the initial run, which is well formed; `complete` says whether that run completed |
| Walking.WalkingModel.Move | model.py:16-22 | the in-place free move reaches exactly the state of the move rule and reports whether it completed |
| Walking.WalkingModel.Step | model.py:24-36 | the in-place step reaches exactly the state of the step rule and reports whether it completed |
| Walking.WalkingModel.MeetAll | model.py:27-34 | the in-place neighbour loop reaches exactly the state of the loop rule |
| Walking.WalkingModel.Meet | model.py:28-34 | one in-place meeting reaches exactly the state of the meeting rule |
| Walking.WalkingModel.Tick | model.py:44-52 | the in-place tick reaches exactly the state of the tick rule and reports whether it completed |
| Walking.WalkingModel.FreePhase | model.py:45-47 | the in-place phase 1 reaches exactly the state of the phase 1 rule |
| Walking.WalkingModel.GroupPhase | model.py:48-52 | the in-place phase 2 reaches exactly the state of the phase 2 rule |
| Walking.WalkingModel.ShiftGroup | model.py:50-52 | shifting one group in place reaches exactly the state of the group-shift rule |
| Walking.FirstFree | model.py:18-21 | the rejection loop returns the index the rule's first-free-draw gives, or the stream length when there is none |
| Walking.PlaceAnimals | model.py:63-68 | the placement loop returns exactly the cells and the leftover stream of the placement rule |
| Walking.InitialFrom | model.py:56-71 | helper for the constructor: the initial state is the placement the constructor computes, all free, with the counter at 0 |

## Left out

- The visualisation and the server (`agent_portrayal`, `CanvasGrid`, `ModularServer`, model.py:79-102) are not modelled. They only display the state.
- `WalkingModel.step` (model.py:73-76) is modelled as a tick (`Tick`). The printing of every group is output only and is not modelled.
- The grid library's internals are not modelled. The model derives occupancy from the animals' positions. The library keeps a separate cell table. Both its emptiness check and its neighbour query read that table (model.py:20, model.py:27). Phase 2 moves group members one after the other, and each move writes into the table and clears the animal's old cell. This can clear a cell another animal stands on, even without two animals sharing a cell. Example: one group has A at (0,0) and B at (1,0), A comes earlier in the schedule, and the vector is (1,0). A's move overwrites B's entry at (1,0), and B's move then clears (1,0) while A stands there. From then on the program's emptiness checks and neighbour lists, and with them its grouping, can differ from the model's. No claim is made that phase 2 keeps one animal per cell.
- The neighbourhood order (above, left, right, below, first occurrence kept) is an assumption about the grid library release the program runs with. `model.py` does not pin a release. The assumed release enumerates rows from y-1 to y+1 and columns from left to right within a row. Other releases build the neighbourhood as a set and sort it, which gives a different order. Last-wins adoption depends on this order. The library's code is not part of this model.
- The random generator is a parameter: a stream of outputs. The model does not describe its distribution.
- Rules.Move, Rules.Place, Rules.Initial, Walking.WalkingModel.Move, Walking.PlaceAnimals, Walking.WalkingModel.constructor: the rejection loops never terminate in the program when no cell is empty. The model stops them at the end of the stream and claims no termination. A move then reports `Stalled`. A placement returns the partial state; `Initial` marks it `Stalled` and the constructor sets `complete` to false.
- Walking.WalkingModel.constructor, Rules.Initial: require a positive size. A size of 0 makes the program's integer draw fail, and that error is not modelled.
- The scheduler's agent registry and step counter, the model's `running` flag, and the animals' unique ids and model back-references are not modelled. The schedule order is the index into the position and group sequences.
