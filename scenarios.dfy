/**
 Concrete games set up by hand, showing what the contract of a tick lets a
 caller conclude without looking inside it.
 */
module Scenarios {
  import opened Wrappers
  import opened Grid
  import opened Keys
  import opened Food
  import opened SnakeGame

  /** The five-cell loop moved down: no food is met, and after the trim the head lies on the body. */
  lemma LoopCollides()
    ensures var moved := Moved([Cell(0, 0), Cell(20, 0), Cell(20, 20), Cell(0, 20), Cell(0, 40)], Down);
      && !Starved(moved, Cell(600, 400), Cell(600, 420))
      && SelfCollides(TrimTail(moved, 5))
  {
    var moved := Moved([Cell(0, 0), Cell(20, 0), Cell(20, 20), Cell(0, 20), Cell(0, 40)], Down);
    assert moved == [Cell(0, 20), Cell(0, 0), Cell(20, 0), Cell(20, 20), Cell(0, 20), Cell(0, 40)];
    var trimmed := TrimTail(moved, 5);
    assert trimmed == [Cell(0, 20), Cell(0, 0), Cell(20, 0), Cell(20, 20), Cell(0, 20)];
    assert trimmed[1..][3] == Cell(0, 20);
  }

  /** A tight loop of five cells: turning down runs the head into the body, and the snake restarts. */
  method SelfCollisionRestarts()
  {
    var g := new Game();
    g.snake.positions := [Cell(0, 0), Cell(20, 0), Cell(20, 20), Cell(0, 20), Cell(0, 40)];
    g.snake.length := 5;
    g.snake.direction := Left;
    g.apple, g.melon := Cell(600, 400), Cell(600, 420);
    assert NextHeading(Left, [DownKey]) == Down by {
      assert [DownKey][..0] == [];
    }
    LoopCollides();
    var outcome := g.Tick([DownKey]);
    assert outcome == Restarted;
    assert g.snake.positions == [ScreenCenter] && g.snake.length == 1;
  }

  /** Both foods on the cell the head moves to: the apple is eaten, the melon stays. */
  method AppleWinsTie()
  {
    var g := new Game();
    g.snake.positions := [ScreenCenter];
    g.snake.length := 1;
    g.snake.direction := Right;
    g.apple, g.melon := Cell(340, 240), Cell(340, 240);
    FreeCellExists([Cell(340, 240), ScreenCenter], Cell(340, 240));
    var outcome := g.Tick([]);
    assert outcome == Continued;
    assert g.snake.length == 2;
    assert g.snake.positions == [Cell(340, 240), ScreenCenter];
    assert g.melon == Cell(340, 240);
    assert g.apple !in g.snake.positions && g.apple != g.melon;
  }

  /** A refused reverse press: the snake keeps moving right. */
  method ReversePressIgnored()
  {
    var g := new Game();
    g.snake.positions := [ScreenCenter];
    g.snake.length := 1;
    g.snake.direction := Right;
    g.apple, g.melon := Cell(0, 0), Cell(0, 20);
    ReverseKeyIgnored(Right, LeftKey);
    var outcome := g.Tick([LeftKey]);
    assert outcome == Continued;
    assert g.snake.direction == Right && g.snake.positions == [Cell(340, 240)];
  }
}
