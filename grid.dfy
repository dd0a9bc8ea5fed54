/**
 * The city board: a size-by-size list of rows of cells, built empty by
 * `initialize_grid` or pre-populated by `initialize_random_grid`.
 */
module Grid {
  import opened Zones
  import opened Seqs

  /** `grid[x][y]` is the cell in row x, column y. */
  type Board = seq<seq<Cell>>

  ghost predicate IsSquare(g: Board, size: nat)
  {
    |g| == size && forall x :: 0 <= x < size ==> |g[x]| == size
  }

  function At(g: Board, p: (int, int)): Cell
    requires 0 <= p.0 < |g| && 0 <= p.1 < |g[p.0]|
  {
    g[p.0][p.1]
  }

  /** `initialize_grid(size)`. */
  function EmptyGrid(size: nat): (g: Board)
    ensures IsSquare(g, size)
    ensures forall x, y :: 0 <= x < size && 0 <= y < size ==> g[x][y] == Empty
  {
    seq(size, _ => seq(size, _ => Empty))
  }

  /** One entry of `zone_data`: how many zones of a type to place and the daily income of each. */
  datatype ZoneRow = ZoneRow(zone: Zone, count: nat, income: real)

  /** The zones `initialize_random_grid` would place with unlimited room, in placement order. */
  function Expand(rows: seq<ZoneRow>): seq<ZoneRow>
  {
    if rows == [] then [] else Repeat(rows[0], rows[0].count) + Expand(rows[1..])
  }

  function TotalCount(rows: seq<ZoneRow>): nat
  {
    if rows == [] then 0 else rows[0].count + TotalCount(rows[1..])
  }

  function IncomeOf(placed: seq<ZoneRow>): real
  {
    if placed == [] then 0.0 else IncomeOf(placed[..|placed| - 1]) + placed[|placed| - 1].income
  }

  function Min(a: int, b: int): int
  {
    if a <= b then a else b
  }

  /** How many zones fit: `min(count, len(positions))` summed over the rows. */
  function PlacedCount(rows: seq<ZoneRow>, size: nat): nat
  {
    Min(|Expand(rows)|, size * size)
  }

  /**
   * The zones the loop places when `room` positions are left: each row in
   * turn takes `min(count, len(positions))` of them.
   */
  function Fill(rows: seq<ZoneRow>, room: nat): (placed: seq<ZoneRow>)
    ensures |placed| <= room
  {
    if rows == [] then []
    else
      var m := Min(rows[0].count, room);
      Repeat(rows[0], m) + Fill(rows[1..], room - m)
  }

  /** `grid[x][y] = zone`, for a position on the board. */
  function Write(g: Board, p: (int, int), z: Zone): Board
  {
    if 0 <= p.0 < |g| && 0 <= p.1 < |g[p.0]| then g[p.0 := g[p.0][p.1 := Built(z)]] else g
  }

  /**
   * The board after writing `zones` in order, each at the position popped
   * from the end of `positions`.
   */
  function Paint(g: Board, positions: seq<(int, int)>, zones: seq<ZoneRow>): Board
    requires |zones| <= |positions|
  {
    if zones == [] then g
    else
      var k := |zones| - 1;
      Write(Paint(g, positions, zones[..k]), positions[|positions| - 1 - k], zones[k].zone)
  }

  /** What `random.shuffle(positions)` yields: every coordinate of the board exactly once. */
  ghost predicate IsShuffle(shuffled: seq<(int, int)>, size: nat)
  {
    && |shuffled| == size * size
    && (forall k :: 0 <= k < |shuffled| ==> 0 <= shuffled[k].0 < size && 0 <= shuffled[k].1 < size)
    && (forall a, b :: 0 <= a < b < |shuffled| ==> shuffled[a] != shuffled[b])
    && (forall x, y :: 0 <= x < size && 0 <= y < size ==> (x, y) in shuffled)
  }

  /**
   * The first `rest` shuffled positions are still in the list and empty;
   * position k beyond them was popped as the (|shuffled|-1-k)-th placement
   * and holds that zone.
   */
  ghost predicate Laid(grid: Board, size: nat, shuffled: seq<(int, int)>, rest: nat, zones: seq<ZoneRow>)
    requires IsSquare(grid, size) && IsShuffle(shuffled, size)
  {
    && rest <= |shuffled|
    && |shuffled| - rest <= |zones|
    && (forall k :: 0 <= k < rest ==> At(grid, shuffled[k]) == Empty)
    && (forall k :: rest <= k < |shuffled| ==> At(grid, shuffled[k]) == Built(zones[|shuffled| - 1 - k].zone))
  }

  lemma {:induction false} ExpandLength(rows: seq<ZoneRow>)
    ensures |Expand(rows)| == TotalCount(rows)
  {
    if rows != [] {
      ExpandLength(rows[1..]);
    }
  }

  /** Row by row, the loop places the prefix of `Expand(rows)` that fits. */
  lemma {:induction false} FillIsPrefix(rows: seq<ZoneRow>, room: nat)
    ensures Fill(rows, room) == Expand(rows)[..Min(|Expand(rows)|, room)]
  {
    if rows != [] {
      var m := Min(rows[0].count, room);
      var a := Repeat(rows[0], rows[0].count);
      var rest := Expand(rows[1..]);
      assert Expand(rows) == a + rest;
      FillIsPrefix(rows[1..], room - m);
      if rows[0].count < room {
        assert (a + rest)[..Min(|a + rest|, room)] == a + rest[..Min(|rest|, room - m)];
      } else {
        assert |Fill(rows[1..], room - m)| == 0;
        assert (a + rest)[..Min(|a + rest|, room)] == Repeat(rows[0], m);
      }
    }
  }

  lemma FillStep(rows: seq<ZoneRow>, i: nat, room: nat)
    requires i < |rows|
    ensures var m := Min(rows[i].count, room);
      Fill(rows[i..], room) == Repeat(rows[i], m) + Fill(rows[i + 1..], room - m)
  {
    assert rows[i..][1..] == rows[i + 1..];
  }

  lemma AppendAssoc(a: seq<ZoneRow>, b: seq<ZoneRow>, c: seq<ZoneRow>)
    ensures (a + b) + c == a + (b + c)
  {
  }

  lemma WriteKeepsSquare(g: Board, size: nat, p: (int, int), z: Zone)
    requires IsSquare(g, size)
    ensures IsSquare(Write(g, p, z), size)
  {
  }

  /** Popping the last remaining position and writing the next zone there keeps the loop state. */
  lemma LaidPop(grid: Board, size: nat, shuffled: seq<(int, int)>, rest: nat, zones: seq<ZoneRow>)
    requires IsSquare(grid, size) && IsShuffle(shuffled, size)
    requires Laid(grid, size, shuffled, rest, zones)
    requires 0 < rest && |shuffled| - rest < |zones|
    ensures var g := Write(grid, shuffled[rest - 1], zones[|shuffled| - rest].zone);
      IsSquare(g, size) && Laid(g, size, shuffled, rest - 1, zones)
  {
    var p := shuffled[rest - 1];
    var g := Write(grid, p, zones[|shuffled| - rest].zone);
    forall k | 0 <= k < |shuffled| && k != rest - 1 ensures At(g, shuffled[k]) == At(grid, shuffled[k]) {
      assert shuffled[k] != p;
    }
  }

  /** The loop state only looks at the zones already placed, so a longer zone list keeps it. */
  lemma LaidExtend(grid: Board, size: nat, shuffled: seq<(int, int)>, rest: nat, zones: seq<ZoneRow>, more: seq<ZoneRow>)
    requires IsSquare(grid, size) && IsShuffle(shuffled, size)
    requires Laid(grid, size, shuffled, rest, zones)
    requires zones <= more
    ensures Laid(grid, size, shuffled, rest, more)
  {
  }

  /** Painting a shuffled empty board leaves it square, with the popped positions holding their zones. */
  lemma {:induction false} PaintLaid(size: nat, shuffled: seq<(int, int)>, zones: seq<ZoneRow>)
    requires IsShuffle(shuffled, size) && |zones| <= |shuffled|
    ensures var g := Paint(EmptyGrid(size), shuffled, zones);
      IsSquare(g, size) && Laid(g, size, shuffled, |shuffled| - |zones|, zones)
  {
    if zones != [] {
      var k := |zones| - 1;
      var prefix := zones[..k];
      PaintLaid(size, shuffled, prefix);
      var g := Paint(EmptyGrid(size), shuffled, prefix);
      LaidExtend(g, size, shuffled, |shuffled| - k, prefix, zones);
      LaidPop(g, size, shuffled, |shuffled| - k, zones);
    }
  }

  /** Since every coordinate occurs in the shuffled list, the loop state fixes every cell. */
  lemma LaidCells(grid: Board, size: nat, shuffled: seq<(int, int)>, rest: nat, zones: seq<ZoneRow>)
    requires IsSquare(grid, size) && IsShuffle(shuffled, size)
    requires Laid(grid, size, shuffled, rest, zones)
    ensures forall x, y :: 0 <= x < size && 0 <= y < size ==>
      (grid[x][y] == Empty <==> (x, y) in shuffled[..rest])
  {
    forall x, y | 0 <= x < size && 0 <= y < size
      ensures grid[x][y] == Empty <==> (x, y) in shuffled[..rest]
    {
      var k :| 0 <= k < |shuffled| && shuffled[k] == (x, y);
      assert At(grid, shuffled[k]) == grid[x][y];
      if (x, y) in shuffled[..rest] {
        var k' :| 0 <= k' < rest && shuffled[k'] == (x, y);
        assert At(grid, shuffled[k']) == grid[x][y];
      }
    }
  }

  /** The loop places the first `PlacedCount` zones of `Expand(rows)`: as many as fit on the board. */
  lemma RandomGridCount(size: nat, rows: seq<ZoneRow>, shuffled: seq<(int, int)>)
    requires IsShuffle(shuffled, size)
    ensures PlacedCount(rows, size) == Min(TotalCount(rows), size * size)
    ensures Fill(rows, |shuffled|) == Expand(rows)[..PlacedCount(rows, size)]
  {
    ExpandLength(rows);
    FillIsPrefix(rows, |shuffled|);
  }

  /**
   * The random board: the last `PlacedCount` shuffled positions hold the
   * first `PlacedCount` zones of `Expand(rows)`, one per pop, and every
   * other cell is empty.
   */
  lemma RandomGridLayout(size: nat, rows: seq<ZoneRow>, shuffled: seq<(int, int)>, g: Board)
    requires IsShuffle(shuffled, size)
    requires g == Paint(EmptyGrid(size), shuffled, Fill(rows, |shuffled|))
    ensures IsSquare(g, size)
    ensures forall k :: |shuffled| - PlacedCount(rows, size) <= k < |shuffled| ==>
      At(g, shuffled[k]) == Built(Expand(rows)[|shuffled| - 1 - k].zone)
    ensures forall x, y :: 0 <= x < size && 0 <= y < size ==>
      (g[x][y] == Empty <==> (x, y) in shuffled[..|shuffled| - PlacedCount(rows, size)])
  {
    RandomGridCount(size, rows, shuffled);
    var placed := Fill(rows, |shuffled|);
    PaintLaid(size, shuffled, placed);
    LaidCells(g, size, shuffled, |shuffled| - |placed|, placed);
  }

  /**
   * The inner loop of `initialize_random_grid` for one row: `count` times,
   * pop the last position, write the zone there and add its income.
   */
  method PlaceRow(grid: Board, positions: seq<(int, int)>, income: real, row: ZoneRow, count: nat,
                  ghost size: nat, ghost shuffled: seq<(int, int)>, ghost placed: seq<ZoneRow>)
    returns (grid': Board, positions': seq<(int, int)>, income': real)
    requires IsShuffle(shuffled, size)
    requires |placed| + count <= |shuffled| && positions == shuffled[..|shuffled| - |placed|]
    requires grid == Paint(EmptyGrid(size), shuffled, placed) && IsSquare(grid, size)
    requires income == IncomeOf(placed)
    ensures var now := placed + Repeat(row, count);
      && positions' == shuffled[..|shuffled| - |now|]
      && grid' == Paint(EmptyGrid(size), shuffled, now) && IsSquare(grid', size)
      && income' == IncomeOf(now)
  {
    ghost var n := |shuffled|;
    ghost var now := placed;
    grid', positions', income' := grid, positions, income;
    var j := 0;
    while j < count
      invariant 0 <= j <= count
      invariant now == placed + Repeat(row, j)
      invariant positions' == shuffled[..n - |now|]
      invariant grid' == Paint(EmptyGrid(size), shuffled, now) && IsSquare(grid', size)
      invariant income' == IncomeOf(now)
    {
      assert (now + [row])[..|now|] == now;
      var p := positions'[|positions'| - 1];
      WriteKeepsSquare(grid', size, p, row.zone);
      positions' := positions'[..|positions'| - 1];
      grid' := grid'[p.0 := grid'[p.0][p.1 := Built(row.zone)]];
      income' := income' + row.income;
      now := now + [row];
      j := j + 1;
    }
  }

  /**
   * `initialize_random_grid(size, zone_data)`, with the outcome of
   * `random.shuffle` passed in as `shuffled`. Zones are taken from the
   * end of the shuffled list, one position each, until the rows or the
   * positions run out; the income is that of the zones placed.
   */
  method InitializeRandomGrid(size: nat, rows: seq<ZoneRow>, shuffled: seq<(int, int)>)
    returns (grid: Board, income: real)
    requires IsShuffle(shuffled, size)
    ensures grid == Paint(EmptyGrid(size), shuffled, Fill(rows, |shuffled|))
    ensures income == IncomeOf(Fill(rows, |shuffled|))
  {
    ghost var n := |shuffled|;
    ghost var placed: seq<ZoneRow> := [];
    grid := EmptyGrid(size);
    var positions := shuffled;
    income := 0.0;
    var i := 0;
    while i < |rows|
      invariant 0 <= i <= |rows|
      invariant |placed| <= n && positions == shuffled[..n - |placed|]
      invariant placed + Fill(rows[i..], |positions|) == Fill(rows, n)
      invariant grid == Paint(EmptyGrid(size), shuffled, placed) && IsSquare(grid, size)
      invariant income == IncomeOf(placed)
    {
      var m := Min(rows[i].count, |positions|);
      ghost var rest := |positions| - m;
      ghost var block := Repeat(rows[i], m);
      FillStep(rows, i, |positions|);
      grid, positions, income := PlaceRow(grid, positions, income, rows[i], m, size, shuffled, placed);
      AppendAssoc(placed, block, Fill(rows[i + 1..], rest));
      placed := placed + block;
      i := i + 1;
    }
    assert rows[i..] == [];
    assert placed + [] == placed;
  }

  /** With nothing to place the random board is the empty board and earns nothing. */
  lemma NothingToPlace(size: nat, rows: seq<ZoneRow>, shuffled: seq<(int, int)>)
    requires IsShuffle(shuffled, size) && TotalCount(rows) == 0
    ensures PlacedCount(rows, size) == 0 && IncomeOf(Expand(rows)[..PlacedCount(rows, size)]) == 0.0
    ensures Paint(EmptyGrid(size), shuffled, Fill(rows, |shuffled|)) == EmptyGrid(size)
    ensures IncomeOf(Fill(rows, |shuffled|)) == 0.0
  {
    ExpandLength(rows);
    FillIsPrefix(rows, |shuffled|);
    assert Fill(rows, |shuffled|) == [];
  }
}
