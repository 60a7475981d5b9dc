/**
 Placement of the two foods (the apple and the melon) on a free cell.
 */
module Food {
  import opened Grid

  /** The cells of a body, as the set the placement excludes. */
  function CellSet(cells: seq<Cell>): set<Cell>
  {
    set c | c in cells
  }

  /**
   The cells excluded when a food is placed with no argument. The default
   argument is the pair (320, 240), and turning a pair into a set gives the set
   of its two numbers {320, 240}; that set holds no cell, so no cell is excluded.
   */
  const DefaultOccupied: set<Cell> := {}

  /**
   Picks any board cell outside `occupied`; which one is left open, as the
   random choice is not modelled. The pick fails on an empty free set, so the
   caller must rule that out.
   */
  method PlaceFood(occupied: set<Cell>) returns (r: Cell)
    requires AllCells() - occupied != {}
    ensures r in AllCells() && r !in occupied
    ensures OnGrid(r)
  {
    r :| r in AllCells() - occupied;
    AllCellsExactly(r);
  }

  /** A placement with the default argument may pick any board cell, the snake's start cell included. */
  lemma DefaultPlacementExcludesNothing(c: Cell)
    ensures c in AllCells() - DefaultOccupied <==> OnGrid(c)
    ensures ScreenCenter in AllCells() - DefaultOccupied
  {
    AllCellsExactly(c);
    AllCellsSize();
  }

  /** While the snake and the other food leave a cell free, the placement for a food can succeed. */
  lemma {:induction false} FreeCellExists(cells: seq<Cell>, other: Cell)
    requires |cells| + 1 < GridWidth * GridHeight
    ensures AllCells() - (CellSet(cells) + {other}) != {}
  {
    CardOfSeqSet(cells);
    AllCellsSize();
    var occupied := CellSet(cells) + {other};
    assert |occupied| <= |cells| + 1;
    SubsetCard(AllCells() * occupied, occupied);
    assert AllCells() == (AllCells() - occupied) + AllCells() * occupied;
  }

  lemma {:induction false} CardOfSeqSet(cells: seq<Cell>)
    ensures |CellSet(cells)| <= |cells|
  {
    if cells != [] {
      CardOfSeqSet(cells[1..]);
      assert CellSet(cells) == CellSet(cells[1..]) + {cells[0]};
    }
  }

  lemma SubsetCard(a: set<Cell>, b: set<Cell>)
    requires a <= b
    ensures |a| <= |b|
  {
    assert b == a + (b - a);
  }
}
