/** What the rules promise: how the neighbour loop settles an animal's
    group, that the group counter and memberships only grow, that phase 1
    keeps animals on distinct cells, and how phase 2 moves each group. */
module Properties {
  import opened Torus
  import opened Rules

  /** `t` is a later state than `s`: the same animals, a counter that has
      not gone down, and every animal that had a group still has it. */
  predicate Evolves(s: Sim, t: Sim) {
    |t.pos| == |s.pos| && |t.group| == |s.group| && t.groups >= s.groups &&
    forall i :: 0 <= i < |s.group| && s.group[i].Member? ==> t.group[i] == s.group[i]
  }

  predicate NeighboursIn(s: Sim, nbrs: seq<nat>) {
    forall k :: 0 <= k < |nbrs| ==> nbrs[k] < |s.group|
  }

  lemma EvolvesTransitive(s: Sim, t: Sim, u: Sim)
    requires Evolves(s, t) && Evolves(t, u)
    ensures Evolves(s, u)
  {
  }

  /** The neighbour loop over `nbrs + [j]` is the loop over `nbrs` followed
      by one meeting with `j`. */
  lemma {:induction false} ScanSnoc(s: Sim, a: nat, nbrs: seq<nat>, j: nat)
    requires a < |s.group| && j < |s.group| && NeighboursIn(s, nbrs)
    ensures Scan(s, a, nbrs + [j]) == Visit(Scan(s, a, nbrs), a, j)
    decreases |nbrs|
  {
    if nbrs == [] {
      assert [] + [j] == [j];
    } else {
      assert (nbrs + [j])[1..] == nbrs[1..] + [j];
      ScanSnoc(Visit(s, a, nbrs[0]), a, nbrs[1..], j);
    }
  }

  /** Last one wins: after the neighbour loop the animal shares the group of
      the last neighbour met. That is a newly founded group when that
      neighbour was still free when met, and the neighbour's group otherwise. */
  lemma ScanLastWins(s: Sim, a: nat, nbrs: seq<nat>)
    requires a < |s.group| && NeighboursIn(s, nbrs) && nbrs != []
    ensures var last := nbrs[|nbrs| - 1];
            var before := Scan(s, a, nbrs[..|nbrs| - 1]);
            var r := Scan(s, a, nbrs);
            r.group[a] == r.group[last] &&
            r.group[a] == (if before.group[last] == Free then Member(before.groups + 1) else before.group[last])
  {
    var init := nbrs[..|nbrs| - 1];
    assert nbrs == init + [nbrs[|nbrs| - 1]];
    ScanSnoc(s, a, init, nbrs[|nbrs| - 1]);
  }

  /** The neighbour loop never takes a group away and writes only into the
      stepping animal and into free neighbours: an animal that is neither
      keeps its group. Group numbers stay in 1..groups. */
  lemma {:induction false} ScanEvolves(s: Sim, a: nat, nbrs: seq<nat>)
    requires a < |s.group| && NeighboursIn(s, nbrs)
    ensures var r := Scan(s, a, nbrs);
            r.groups >= s.groups &&
            (forall i :: 0 <= i < |s.group| && i != a && s.group[i].Member? ==> r.group[i] == s.group[i]) &&
            (forall i :: 0 <= i < |s.group| && s.group[i].Member? ==> r.group[i].Member?)
    ensures (forall i :: 0 <= i < |s.group| && s.group[i].Member? ==> 1 <= s.group[i].id <= s.groups) ==>
            var r := Scan(s, a, nbrs);
            forall i :: 0 <= i < |r.group| && r.group[i].Member? ==> 1 <= r.group[i].id <= r.groups
    ensures forall i :: 0 <= i < |s.group| && i != a && i !in nbrs ==> Scan(s, a, nbrs).group[i] == s.group[i]
    decreases |nbrs|
  {
    if nbrs != [] {
      ScanEvolves(Visit(s, a, nbrs[0]), a, nbrs[1..]);
      forall i | 0 <= i < |s.group| && i != a && i !in nbrs
        ensures Scan(s, a, nbrs).group[i] == s.group[i]
      {
        assert i !in nbrs[1..] && i != nbrs[0];
      }
    }
  }

  /** The neighbour loop from position `k` of `nbrs` is one meeting followed
      by the loop from position `k + 1`. */
  lemma ScanFrom(s: Sim, a: nat, nbrs: seq<nat>, k: nat)
    requires a < |s.group| && NeighboursIn(s, nbrs) && k < |nbrs|
    ensures Scan(s, a, nbrs[k..]) == Scan(Visit(s, a, nbrs[k]), a, nbrs[k + 1..])
  {
    assert nbrs[k..][1..] == nbrs[k + 1..];
  }

  /** One meeting keeps every group number in 1..groups. */
  lemma VisitWellFormed(g: Grid, s: Sim, a: nat, i: nat)
    requires WellFormed(g, s) && a < |s.pos| && i < |s.pos|
    ensures WellFormed(g, Visit(s, a, i))
  {
    var r := Visit(s, a, i);
    forall k | 0 <= k < |r.group| && r.group[k].Member?
      ensures 1 <= r.group[k].id <= r.groups
    {
      if k != a && k != i {
        assert r.group[k] == s.group[k];
      }
    }
  }

  /** The counter goes up by exactly the number of free neighbours met. */
  function Founded(s: Sim, a: nat, nbrs: seq<nat>): (n: nat)
    requires a < |s.group| && NeighboursIn(s, nbrs)
    decreases |nbrs|
  {
    if nbrs == [] then 0
    else (if s.group[nbrs[0]] == Free then 1 else 0) + Founded(Visit(s, a, nbrs[0]), a, nbrs[1..])
  }

  lemma {:induction false} ScanCounts(s: Sim, a: nat, nbrs: seq<nat>)
    requires a < |s.group| && NeighboursIn(s, nbrs)
    ensures Scan(s, a, nbrs).groups == s.groups + Founded(s, a, nbrs)
    ensures Founded(s, a, nbrs) <= |nbrs|
    decreases |nbrs|
  {
    if nbrs != [] {
      ScanCounts(Visit(s, a, nbrs[0]), a, nbrs[1..]);
    }
  }

  /** The neighbours reported around `c` are exactly the animals standing
      on one of its four orthogonal cells. */
  lemma NeighboursExactly(g: Grid, pos: seq<Cell>, c: Cell)
    requires ValidGrid(g)
    ensures forall k :: 0 <= k < |Neighbours(g, pos, c)| ==> pos[Neighbours(g, pos, c)[k]] in Around(g, c)
    ensures forall i :: 0 <= i < |pos| && pos[i] in Around(g, c) ==> i in Neighbours(g, pos, c)
  {
  }

  /** The rejection loop stops at the first output that selects an empty
      cell: if the outputs before index `k` all select occupied cells and
      the one at `k` (if any) selects an empty cell, the loop returns `k`,
      or reports that the stream ran out when `k` is its length. */
  lemma {:induction false} FirstFreeDrawAt(cands: seq<Cell>, pos: seq<Cell>, rng: seq<nat>, k: nat)
    requires |cands| > 0 && k <= |rng|
    requires forall j :: 0 <= j < k ==> Pick(cands, rng[j]) in pos
    requires k < |rng| ==> Pick(cands, rng[k]) !in pos
    ensures FirstFreeDraw(cands, pos, rng) == if k == |rng| then None else Some(k)
    decreases k
  {
    if k > 0 {
      FirstFreeDrawAt(cands, pos, rng[1..], k - 1);
    }
  }

  /** A free move lands on an empty orthogonal neighbour cell and leaves
      every membership alone; it stalls whenever no neighbour cell is empty. */
  lemma MoveLands(g: Grid, s: Sim, a: nat)
    requires WellFormed(g, s) && a < |s.pos|
    ensures var r := Move(g, s, a);
            WellFormed(g, r.sim) && r.sim.group == s.group && r.sim.groups == s.groups &&
            (r.Done? ==> r.sim.pos[a] in Around(g, s.pos[a]) && r.sim.pos[a] !in s.pos)
  {
    var r := Move(g, s, a);
    if r.Done? {
      assert r.sim.pos[a] in Neighbourhood(g, s.pos[a]);
    }
    forall i | 0 <= i < |r.sim.pos| ensures Contains(g, r.sim.pos[i]) {
      if i == a && r.Done? {
        assert r.sim.pos[a] in Neighbourhood(g, s.pos[a]);
      }
    }
  }

  /** A free animal leaves the neighbour loop still free exactly when it
      met nobody, and then the loop changed nothing. */
  lemma ScanFreeIffEmpty(s: Sim, a: nat, nbrs: seq<nat>)
    requires a < |s.group| && NeighboursIn(s, nbrs) && s.group[a] == Free
    ensures Scan(s, a, nbrs).group[a] == Free <==> nbrs == []
    ensures nbrs == [] ==> Scan(s, a, nbrs) == s
  {
    if nbrs != [] {
      ScanLastWins(s, a, nbrs);
    }
  }

  /** After its free move, an animal stays free exactly when nobody stands
      on any of the four orthogonal cells of its new cell; then the step
      changes no group and not the counter. Otherwise it ends in a group. */
  lemma AloneStaysFree(g: Grid, s: Sim, a: nat)
    requires WellFormed(g, s) && a < |s.pos| && s.group[a] == Free && Move(g, s, a).Done?
    ensures var t := Move(g, s, a).sim;
            var r := Step(g, s, a, None).sim;
            r.group[a] == Free <==> forall i :: 0 <= i < |t.pos| ==> t.pos[i] !in Around(g, t.pos[a])
    ensures var t := Move(g, s, a).sim;
            var r := Step(g, s, a, None).sim;
            (forall i :: 0 <= i < |t.pos| ==> t.pos[i] !in Around(g, t.pos[a])) ==>
            r.group == s.group && r.groups == s.groups
  {
    var t := Move(g, s, a).sim;
    var nbrs := Neighbours(g, t.pos, t.pos[a]);
    assert Step(g, s, a, None).sim == Scan(t, a, nbrs);
    NeighboursExactly(g, t.pos, t.pos[a]);
    ScanFreeIffEmpty(t, a, nbrs);
    if nbrs == [] {
      forall i | 0 <= i < |t.pos| ensures t.pos[i] !in Around(g, t.pos[a]) {
        assert t.pos[i] in Around(g, t.pos[a]) ==> i in nbrs;
      }
    } else {
      assert t.pos[nbrs[0]] in Around(g, t.pos[a]);
    }
  }

  /** The neighbour loop at an animal's own position, for an animal that
      was free, keeps the state well formed and only adds memberships. */
  lemma ScanAtEvolves(g: Grid, t: Sim, a: nat)
    requires WellFormed(g, t) && a < |t.pos| && t.group[a] == Free
    ensures WellFormed(g, Scan(t, a, Neighbours(g, t.pos, t.pos[a])))
    ensures Evolves(t, Scan(t, a, Neighbours(g, t.pos, t.pos[a])))
  {
    ScanEvolves(t, a, Neighbours(g, t.pos, t.pos[a]));
  }

  /** A step without a displacement by a free animal keeps the state well
      formed and only adds memberships. */
  lemma FreeStepEvolves(g: Grid, s: Sim, a: nat)
    requires WellFormed(g, s) && a < |s.pos| && s.group[a] == Free
    ensures WellFormed(g, Step(g, s, a, None).sim) && Evolves(s, Step(g, s, a, None).sim)
  {
    MoveLands(g, s, a);
    var m := Move(g, s, a);
    if m.Done? {
      var t := m.sim;
      assert Step(g, s, a, None).sim == Scan(t, a, Neighbours(g, t.pos, t.pos[a]));
      ScanAtEvolves(g, t, a);
    } else {
      assert Step(g, s, a, None).sim == m.sim;
    }
  }

  /** A step without a displacement moves nobody but the stepping animal. */
  lemma FreeStepStays(g: Grid, s: Sim, a: nat, i: nat)
    requires WellFormed(g, s) && a < |s.pos| && i < |s.pos| && i != a
    ensures Step(g, s, a, None).sim.pos[i] == s.pos[i]
  {
    var m := Move(g, s, a);
    if m.Done? {
      var t := m.sim;
      assert Step(g, s, a, None).sim == Scan(t, a, Neighbours(g, t.pos, t.pos[a]));
    } else {
      assert Step(g, s, a, None).sim == m.sim;
    }
  }

  /** Phase 1 at a free animal: its step, then the rest of the phase from
      the state the step left, unless the step stalled. */
  lemma Phase1AtFree(g: Grid, s: Sim, k: nat)
    requires ValidGrid(g) && |s.group| == |s.pos| && k < |s.pos| && s.group[k] == Free
    ensures var r := Step(g, s, k, None);
            Phase1(g, s, k) == if r.Done? then Phase1(g, r.sim, k + 1) else r
  {
  }

  /** Phase 1 keeps the state well formed and only adds memberships. */
  lemma {:induction false} Phase1Evolves(g: Grid, s: Sim, k: nat)
    requires WellFormed(g, s)
    ensures WellFormed(g, Phase1(g, s, k).sim) && Evolves(s, Phase1(g, s, k).sim)
    decreases |s.pos| - k
  {
    if k >= |s.pos| {
    } else if s.group[k].Member? {
      Phase1Evolves(g, s, k + 1);
    } else {
      FreeStepEvolves(g, s, k);
      Phase1AtFree(g, s, k);
      var r := Step(g, s, k, None);
      if r.Done? {
        Phase1Evolves(g, r.sim, k + 1);
        EvolvesTransitive(s, r.sim, Phase1(g, r.sim, k + 1).sim);
      }
    }
  }

  /** A step without a displacement by a free animal leaves every grouped
      animal where it is and in its group. */
  lemma FreeStepKeeps(g: Grid, s: Sim, a: nat, i: nat)
    requires WellFormed(g, s) && a < |s.pos| && s.group[a] == Free
    requires i < |s.pos| && s.group[i].Member?
    ensures var t := Step(g, s, a, None).sim;
            WellFormed(g, t) && t.pos[i] == s.pos[i] && t.group[i] == s.group[i]
  {
    FreeStepEvolves(g, s, a);
    FreeStepStays(g, s, a, i);
  }

  /** An animal that has a group at some point of phase 1 (from the start,
      or because a neighbour pulled it in before its turn) is skipped: it
      neither moves nor changes group for the rest of the phase. */
  lemma {:induction false} Phase1Skips(g: Grid, s: Sim, k: nat, i: nat)
    requires WellFormed(g, s) && i < |s.pos| && s.group[i].Member?
    ensures Phase1(g, s, k).sim.pos[i] == s.pos[i] && Phase1(g, s, k).sim.group[i] == s.group[i]
    decreases |s.pos| - k
  {
    if k >= |s.pos| {
      assert Phase1(g, s, k) == Done(s);
    } else if s.group[k].Member? {
      Phase1Skips(g, s, k + 1, i);
      var t := Phase1(g, s, k + 1);
      assert Phase1(g, s, k) == t;
      assert t.sim.pos[i] == s.pos[i] && t.sim.group[i] == s.group[i];
    } else {
      FreeStepKeeps(g, s, k, i);
      Phase1AtFree(g, s, k);
      var r := Step(g, s, k, None);
      if r.Done? {
        Phase1Skips(g, r.sim, k + 1, i);
        var t := Phase1(g, r.sim, k + 1);
        assert Phase1(g, s, k) == t;
        assert t.sim.pos[i] == s.pos[i] && t.sim.group[i] == s.group[i];
      } else {
        assert Phase1(g, s, k) == r;
      }
    }
  }

  /** A step without a displacement keeps animals on pairwise distinct
      cells: the free move only ever targets an empty cell. */
  lemma FreeStepDistinct(g: Grid, s: Sim, a: nat)
    requires WellFormed(g, s) && a < |s.pos| && Distinct(s.pos)
    ensures Distinct(Step(g, s, a, None).sim.pos)
  {
    var m := Move(g, s, a);
    assert Step(g, s, a, None).sim.pos == m.sim.pos;
    if m.Done? {
      forall i, j | 0 <= i < j < |s.pos| ensures m.sim.pos[i] != m.sim.pos[j] {
        if i == a {
          assert m.sim.pos[j] == s.pos[j];
        } else if j == a {
          assert m.sim.pos[i] == s.pos[i];
        }
      }
    }
  }

  /** Phase 1 keeps animals on pairwise distinct cells. */
  lemma {:induction false} Phase1Distinct(g: Grid, s: Sim, k: nat)
    requires WellFormed(g, s) && Distinct(s.pos)
    ensures Distinct(Phase1(g, s, k).sim.pos)
    decreases |s.pos| - k
  {
    if k < |s.pos| && s.group[k].Member? {
      Phase1Distinct(g, s, k + 1);
    } else if k < |s.pos| {
      FreeStepEvolves(g, s, k);
      FreeStepDistinct(g, s, k);
      Phase1AtFree(g, s, k);
      var r := Step(g, s, k, None);
      if r.Done? {
        Phase1Distinct(g, r.sim, k + 1);
      }
    }
  }

  /** The displacement phase 2 gives group `gid` when it starts at group `id`. */
  function GroupVector(s: Sim, id: nat, gid: nat): Vec
    requires id <= gid < |s.rng| + id
  {
    Pick(Moves, s.rng[gid - id])
  }

  /** Phase 2 from group `id`: it completes exactly when the stream holds
      one output per group from `id` up to but excluding the counter. Then
      every member of such a group moved by its group's displacement, and
      everybody else (free animals, and the group numbered like the counter)
      stayed put. No membership and not the counter changes. */
  lemma {:induction false} Phase2Moves(g: Grid, s: Sim, id: nat)
    requires WellFormed(g, s) && id >= 1
    ensures var r := Phase2(g, s, id);
            WellFormed(g, r.sim) && r.sim.group == s.group && r.sim.groups == s.groups &&
            (r.Done? <==> id >= s.groups || |s.rng| >= s.groups - id)
    ensures var r := Phase2(g, s, id);
            r.Done? && id < s.groups ==>
            r.sim.rng == s.rng[s.groups - id..] &&
            forall i :: 0 <= i < |s.pos| ==>
              r.sim.pos[i] == if s.group[i].Member? && id <= s.group[i].id < s.groups
                              then Shift(g, s.pos[i], GroupVector(s, id, s.group[i].id))
                              else s.pos[i]
    decreases s.groups - id
  {
    if id >= s.groups || s.rng == [] {
    } else {
      var v := Pick(Moves, s.rng[0]);
      var t := MoveGroup(g, s.(rng := s.rng[1..]), id, v);
      assert WellFormed(g, t);
      Phase2Moves(g, t, id + 1);
      var r := Phase2(g, t, id + 1);
      if r.Done? && id < s.groups {
        forall i | 0 <= i < |s.pos|
          ensures r.sim.pos[i] == if s.group[i].Member? && id <= s.group[i].id < s.groups
                                  then Shift(g, s.pos[i], GroupVector(s, id, s.group[i].id))
                                  else s.pos[i]
        {
          if s.group[i].Member? && id + 1 <= s.group[i].id < s.groups {
            assert GroupVector(t, id + 1, s.group[i].id) == GroupVector(s, id, s.group[i].id);
          }
        }
      }
    }
  }

  /** A whole tick keeps the state well formed; the counter never goes
      down, and an animal that had a group keeps that very group. */
  lemma TickEvolves(g: Grid, s: Sim)
    requires WellFormed(g, s)
    ensures WellFormed(g, Tick(g, s).sim) && Evolves(s, Tick(g, s).sim)
  {
    Phase1Evolves(g, s, 0);
    match Phase1(g, s, 0)
    case Stalled(t) =>
    case Done(t) =>
      Phase2Moves(g, t, 1);
  }

  /** The phase 2 boundary: in a completed tick the newest group, numbered
      like the counter, does not move during phase 2, and neither does any
      free animal. */
  lemma NewestGroupStays(g: Grid, s: Sim, i: nat)
    requires WellFormed(g, s) && i < |s.pos|
    requires Phase1(g, s, 0).Done? && Tick(g, s).Done?
    ensures var t := Phase1(g, s, 0).sim;
            t.group[i] == Free || t.group[i] == Member(t.groups) ==> Tick(g, s).sim.pos[i] == t.pos[i]
  {
    Phase1Evolves(g, s, 0);
    var t := Phase1(g, s, 0).sim;
    assert Tick(g, s) == Phase2(g, t, 1);
    Phase2Moves(g, t, 1);
  }

  /** The cell (x, y) numbered row by row. */
  function CellIndex(g: Grid, c: Cell): int {
    c.y * g.width + c.x
  }

  /** A set of numbers below `n` has at most `n` elements. */
  lemma {:induction false} BelowBound(S: set<int>, n: nat)
    requires forall x :: x in S ==> 0 <= x < n
    ensures |S| <= n
    decreases n
  {
    if n > 0 {
      var T := S - {n - 1};
      BelowBound(T, n - 1);
      assert S <= T + {n - 1};
    } else {
      assert forall x :: x !in S;
      assert S == {};
    }
  }

  /** Row-by-row numbering keeps on-grid cells below `width * height`. */
  lemma IndexBound(g: Grid, c: Cell)
    requires ValidGrid(g) && Contains(g, c)
    ensures 0 <= CellIndex(g, c) < g.width * g.height
  {
    assert c.y * g.width <= (g.height - 1) * g.width;
    assert (g.height - 1) * g.width == g.height * g.width - g.width;
  }

  /** Row-by-row numbering tells on-grid cells apart. */
  lemma IndexInjective(g: Grid, c: Cell, d: Cell)
    requires ValidGrid(g) && Contains(g, c) && Contains(g, d) && c != d
    ensures CellIndex(g, c) != CellIndex(g, d)
  {
    if c.y < d.y {
      assert (c.y + 1) * g.width <= d.y * g.width;
    } else if d.y < c.y {
      assert (d.y + 1) * g.width <= c.y * g.width;
    }
  }

  /** Pairwise distinct on-grid cells are numbered by pairwise distinct
      numbers below `width * height`, one set element per cell. */
  lemma {:induction false} IndexSet(g: Grid, cells: seq<Cell>)
    requires ValidGrid(g) && Distinct(cells)
    requires forall c :: c in cells ==> Contains(g, c)
    ensures var S := set c | c in cells :: CellIndex(g, c);
            |S| == |cells| && forall x :: x in S ==> 0 <= x < g.width * g.height
    decreases |cells|
  {
    if cells != [] {
      var init := cells[..|cells| - 1];
      var last := cells[|cells| - 1];
      assert Distinct(init);
      IndexSet(g, init);
      var S := set c | c in cells :: CellIndex(g, c);
      var T := set c | c in init :: CellIndex(g, c);
      assert S == T + {CellIndex(g, last)} by {
        assert cells == init + [last];
      }
      forall c | c in init ensures CellIndex(g, c) != CellIndex(g, last) {
        var j :| 0 <= j < |init| && init[j] == c;
        assert cells[j] != cells[|cells| - 1];
        IndexInjective(g, c, last);
      }
      forall x | x in S ensures 0 <= x < g.width * g.height {
        var c :| c in cells && x == CellIndex(g, c);
        IndexBound(g, c);
      }
    }
  }

  /** Pairwise distinct on-grid cells are at most as many as the grid has. */
  lemma FitsOnGrid(g: Grid, cells: seq<Cell>)
    requires ValidGrid(g) && Distinct(cells)
    requires forall c :: c in cells ==> Contains(g, c)
    ensures |cells| <= g.width * g.height
  {
    IndexSet(g, cells);
    BelowBound(set c | c in cells :: CellIndex(g, c), g.width * g.height);
  }

  /** On a grid with fewer cells than animals the placement never
      completes: whatever the random outputs, fewer than 40 animals are
      placed and the stream is used up (the program keeps sampling for
      ever). */
  lemma SmallGridStalls(size: nat, rng: seq<nat>)
    requires size > 0 && size * size < AgentCount
    ensures Initial(size, rng).Stalled? && |Initial(size, rng).sim.pos| < AgentCount
  {
    var s := Initial(size, rng).sim;
    forall c | c in s.pos ensures Contains(Grid(size, size), c) {
      var i :| 0 <= i < |s.pos| && s.pos[i] == c;
    }
    FitsOnGrid(Grid(size, size), s.pos);
  }
}
