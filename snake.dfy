/**
 The snake and one tick of the game loop: key handling, the heading update,
 the move, eating, the tail trim and the self-collision restart.
 */
module SnakeGame {
  import opened Wrappers
  import opened Grid
  import opened Keys
  import opened Food

  /** How much the snake's length grows for each food. */
  const AppleGrowth: int := 1
  const MelonGrowth: int := 2

  /** The growth one move earns: the apple is tested first, so it wins when both foods share the head's cell. */
  function Growth(head: Cell, apple: Cell, melon: Cell): int
  {
    if head == apple then AppleGrowth else if head == melon then MelonGrowth else 0
  }

  /** The body after one step of heading d: a new head in front, the old cells behind it. */
  function Moved(cells: seq<Cell>, d: Dir): (r: seq<Cell>)
    requires |cells| >= 1
  {
    [Step(cells[0], d)] + cells
  }

  /** The tail trim of a tick: a single last cell is dropped when the body is longer than the length. */
  function TrimTail(cells: seq<Cell>, length: nat): (r: seq<Cell>)
  {
    if |cells| > length then cells[..|cells| - 1] else cells
  }

  /** The head lies on another cell of the body. */
  predicate SelfCollides(cells: seq<Cell>)
  {
    |cells| >= 1 && cells[0] in cells[1..]
  }

  /** The cells left for a food once the body and the other food are excluded. */
  function FreeCells(cells: seq<Cell>, other: Cell): set<Cell>
  {
    AllCells() - (CellSet(cells) + {other})
  }

  /** The food placement of this tick finds no free cell. */
  predicate Starved(moved: seq<Cell>, apple: Cell, melon: Cell)
    requires |moved| >= 1
  {
    if moved[0] == apple then FreeCells(moved, melon) == {}
    else moved[0] == melon && FreeCells(moved, apple) == {}
  }

  /** How a tick ended. NoFreeCell: a food had to be placed with no free cell left, which ends the game. */
  datatype TickOutcome = Continued | Restarted | NoFreeCell

  predicate AllOnGrid(cells: seq<Cell>)
  {
    forall i :: 0 <= i < |cells| ==> OnGrid(cells[i])
  }

  /** A step keeps every cell of the body on the board. */
  lemma MovedOnGrid(cells: seq<Cell>, d: Dir)
    requires |cells| >= 1 && AllOnGrid(cells)
    ensures AllOnGrid(Moved(cells, d))
  {
    StepOnGrid(cells[0], d);
  }

  /** Over one tick the bounds 1 <= |body| <= length survive, and at most one tail cell goes. */
  lemma TickBounds(cells: seq<Cell>, d: Dir, length: int, growth: int)
    requires 1 <= |cells| <= length && growth >= 0
    ensures var t := TrimTail(Moved(cells, d), length + growth);
      && 1 <= |t| <= length + growth
      && |cells| <= |t| <= |cells| + 1
      && t == Moved(cells, d)[..|t|]
  {
  }

  /** A trim that drops tail cells until the body is no longer than the length. */
  function TrimAll(cells: seq<Cell>, length: nat): seq<Cell>
  {
    if |cells| > length then TrimAll(cells[..|cells| - 1], length) else cells
  }

  /** A body at most one cell longer than the length loses the same cells to one trim as to a trim loop. */
  lemma SingleTrimAsLoop(cells: seq<Cell>, length: nat)
    requires |cells| <= length + 1
    ensures TrimTail(cells, length) == TrimAll(cells, length)
  {
  }

  /** In a tick that starts with 1 <= |body| <= length, the single trim drops exactly what a trim loop would. */
  lemma TickTrimAsLoop(cells: seq<Cell>, d: Dir, length: int, growth: int)
    requires 1 <= |cells| <= length && growth >= 0
    ensures TrimTail(Moved(cells, d), length + growth) == TrimAll(Moved(cells, d), length + growth)
  {
    SingleTrimAsLoop(Moved(cells, d), length + growth);
  }

  /**
   Each move adds a single head, so the body gains at most one cell per tick:
   after a melon it is one short of the length, and full one tick later when
   nothing is eaten.
   */
  lemma MelonGrowsOverTwoTicks(cells: seq<Cell>, d1: Dir, d2: Dir)
    requires 1 <= |cells|
    ensures var length := |cells| + MelonGrowth;
      var first := TrimTail(Moved(cells, d1), length);
      var second := TrimTail(Moved(first, d2), length);
      && |first| == |cells| + 1 < length
      && |second| == length
  {
  }

  /** A snapshot of the game between ticks: the snake's fields that a tick changes and the two foods. */
  datatype GameState = GameState(positions: seq<Cell>, length: int, direction: Dir, apple: Cell, melon: Cell)

  /**
   What one tick with the presses `keys` does to the state s, ending in the state
   t with the given outcome: the heading from the presses, one move, the apple
   tested before the melon and growing the length by 1 or 2, the eaten food
   re-placed outside the moved body and the other food, a single tail trim,
   and a restart when the head lies on the trimmed body.
   */
  ghost predicate TickStep(s: GameState, keys: seq<Key>, outcome: TickOutcome, t: GameState)
  {
    && |s.positions| >= 1
    && TickEffect(s, NextHeading(s.direction, keys), Moved(s.positions, NextHeading(s.direction, keys)), outcome, t)
  }

  /** The effect of a tick whose move went in `heading` and gave the body `moved`. */
  ghost predicate TickEffect(s: GameState, heading: Dir, moved: seq<Cell>, outcome: TickOutcome, t: GameState)
  {
    && |moved| >= 1
    && (outcome == NoFreeCell <==> Starved(moved, s.apple, s.melon))
    && LengthEffect(s, moved[0], outcome, t)
    && FoodEffect(s, moved, outcome != NoFreeCell, t)
    && BodyEffect(moved, s.length + Growth(moved[0], s.apple, s.melon), heading, outcome, t)
  }

  /** The apple is tested first and grows the length by 1, the melon by 2; otherwise it stays. */
  ghost predicate LengthEffect(s: GameState, head: Cell, outcome: TickOutcome, t: GameState)
  {
    && (outcome != Restarted && head == s.apple ==> t.length == s.length + AppleGrowth)
    && (outcome != Restarted && head != s.apple && head == s.melon ==> t.length == s.length + MelonGrowth)
    && (outcome != Restarted && head != s.apple && head != s.melon ==> t.length == s.length)
  }

  /** An eaten and re-placed food goes to a board cell off the moved body and the other food; an uneaten one stays. */
  ghost predicate FoodEffect(s: GameState, moved: seq<Cell>, placed: bool, t: GameState)
    requires |moved| >= 1
  {
    && (if moved[0] == s.apple && placed
        then OnGrid(t.apple) && t.apple !in moved && t.apple != t.melon && t.melon == s.melon
        else t.apple == s.apple)
    && (if moved[0] != s.apple && moved[0] == s.melon && placed
        then OnGrid(t.melon) && t.melon !in moved && t.melon != t.apple && t.apple == s.apple
        else t.melon == s.melon)
  }

  /** The body: the moved one on NoFreeCell, trimmed once otherwise, and the start cell after a restart. */
  ghost predicate BodyEffect(moved: seq<Cell>, grown: int, heading: Dir, outcome: TickOutcome, t: GameState)
  {
    var trimmed := TrimTail(moved, if grown < 0 then 0 else grown);
    && (outcome == NoFreeCell ==> t.positions == moved && t.direction == heading)
    && (outcome != NoFreeCell ==> (outcome == Restarted <==> SelfCollides(trimmed)))
    && (outcome == Continued ==> t.positions == trimmed && t.direction == heading)
    && (outcome == Restarted ==> t.positions == [ScreenCenter] && t.length == 1)
  }

  /**
   The states `trace` and outcomes replay the first |outcomes| polls tick by
   tick: each state goes to the next by one tick on the next poll.
   */
  ghost predicate Replays(trace: seq<GameState>, polls: seq<seq<Key>>, outcomes: seq<TickOutcome>)
    decreases |outcomes|
  {
    && |trace| == |outcomes| + 1 && |outcomes| <= |polls|
    && (|outcomes| > 0 ==>
          && Replays(trace[..|trace| - 1], polls, outcomes[..|outcomes| - 1])
          && TickStep(trace[|trace| - 2], polls[|outcomes| - 1], outcomes[|outcomes| - 1], trace[|trace| - 1]))
  }

  /** In a replayed run, state i goes to state i + 1 by one tick on poll i. */
  lemma {:induction false} ReplaysStep(trace: seq<GameState>, polls: seq<seq<Key>>, outcomes: seq<TickOutcome>, i: int)
    requires Replays(trace, polls, outcomes) && 0 <= i < |outcomes|
    ensures TickStep(trace[i], polls[i], outcomes[i], trace[i + 1])
    decreases |outcomes|
  {
    if i < |outcomes| - 1 {
      ReplaysStep(trace[..|trace| - 1], polls, outcomes[..|outcomes| - 1], i);
    }
  }

  /** A replayed run followed by one more tick on the next poll is a replayed run. */
  lemma ReplaysExtend(trace: seq<GameState>, polls: seq<seq<Key>>, outcomes: seq<TickOutcome>,
                      t: GameState, outcome: TickOutcome)
    requires Replays(trace, polls, outcomes) && |outcomes| < |polls|
    requires TickStep(trace[|outcomes|], polls[|outcomes|], outcome, t)
    ensures Replays(trace + [t], polls, outcomes + [outcome])
  {
    assert (trace + [t])[..|trace|] == trace;
    assert (outcomes + [outcome])[..|outcomes|] == outcomes;
  }

  lemma TrimTailOnGrid(cells: seq<Cell>, length: nat)
    requires AllOnGrid(cells)
    ensures AllOnGrid(TrimTail(cells, length))
  {
  }

  /** A state in which 1 <= |body| <= length and the body and both foods lie on board cells. */
  ghost predicate OnBoard(g: GameState)
  {
    1 <= |g.positions| <= g.length && AllOnGrid(g.positions) && OnGrid(g.apple) && OnGrid(g.melon)
  }

  /** A tick from a state on the board ends in a state on the board, whatever its outcome. */
  lemma TickStepKeepsBoard(s: GameState, keys: seq<Key>, outcome: TickOutcome, t: GameState)
    requires OnBoard(s) && TickStep(s, keys, outcome, t)
    ensures OnBoard(t)
  {
    var heading := NextHeading(s.direction, keys);
    var moved := Moved(s.positions, heading);
    var growth := Growth(moved[0], s.apple, s.melon);
    MovedOnGrid(s.positions, heading);
    TickBounds(s.positions, heading, s.length, growth);
    TrimTailOnGrid(moved, s.length + growth);
    if outcome == Restarted {
      AllCellsSize();
      AllCellsExactly(ScreenCenter);
    }
  }

  /** State i of a replayed run that starts on the board is on the board. */
  lemma {:induction false} ReplaysOnBoardAt(trace: seq<GameState>, polls: seq<seq<Key>>, outcomes: seq<TickOutcome>, i: int)
    requires Replays(trace, polls, outcomes) && OnBoard(trace[0]) && 0 <= i < |trace|
    ensures OnBoard(trace[i])
  {
    if i > 0 {
      ReplaysOnBoardAt(trace, polls, outcomes, i - 1);
      ReplaysStepKeepsBoard(trace, polls, outcomes, i - 1);
    }
  }

  lemma ReplaysStepKeepsBoard(trace: seq<GameState>, polls: seq<seq<Key>>, outcomes: seq<TickOutcome>, i: int)
    requires Replays(trace, polls, outcomes) && 0 <= i < |outcomes| && OnBoard(trace[i])
    ensures OnBoard(trace[i + 1])
  {
    ReplaysStep(trace, polls, outcomes, i);
    TickStepKeepsBoard(trace[i], polls[i], outcomes[i], trace[i + 1]);
  }

  /** Every state of a replayed run that starts on the board is on the board. */
  lemma ReplaysKeepBoard(trace: seq<GameState>, polls: seq<seq<Key>>, outcomes: seq<TickOutcome>)
    requires Replays(trace, polls, outcomes) && OnBoard(trace[0])
    ensures forall i :: 0 <= i < |trace| ==> OnBoard(trace[i])
  {
    forall i | 0 <= i < |trace| ensures OnBoard(trace[i]) {
      ReplaysOnBoardAt(trace, polls, outcomes, i);
    }
  }

  class Snake {
    var positions: seq<Cell>
    var length: int
    var direction: Dir
    var nextDirection: Option<Dir>

    /** The state kept between ticks: a non-empty body, no longer than the length, on the board. */
    ghost predicate Valid()
      reads this
    {
      1 <= |positions| <= length && AllOnGrid(positions)
    }

    constructor ()
      ensures Valid()
      ensures length == 1 && positions == [ScreenCenter]
      ensures direction == Right && nextDirection == None
    {
      length := 1;
      positions := [ScreenCenter];
      direction := Right;
      nextDirection := None;
    }

    /** The key presses of one poll, handled in order; the heading itself is not changed. */
    method HandleKeys(keys: seq<Key>)
      modifies this`nextDirection
      ensures nextDirection == Pending(direction, old(nextDirection), keys)
    {
      for i := 0 to |keys|
        invariant nextDirection == Pending(direction, old(nextDirection), keys[..i])
      {
        assert keys[..i + 1][..i] == keys[..i];
        var k := keys[i];
        if k == UpKey && direction != Down {
          nextDirection := Some(Up);
        } else if k == DownKey && direction != Up {
          nextDirection := Some(Down);
        } else if k == LeftKey && direction != Right {
          nextDirection := Some(Left);
        } else if k == RightKey && direction != Left {
          nextDirection := Some(Right);
        }
      }
      assert keys[..|keys|] == keys;
    }

    /** A pending heading, if there is one, becomes the heading and is cleared. */
    method UpdateDirection()
      modifies this`direction, this`nextDirection
      ensures old(nextDirection).Some? ==> direction == old(nextDirection).value
      ensures old(nextDirection).None? ==> direction == old(direction)
      ensures nextDirection == None
      ensures direction == Applied(old(direction), old(nextDirection))
    {
      if nextDirection.Some? {
        direction := nextDirection.value;
        nextDirection := None;
      }
    }

    /** A new head, one step from the old one in the heading, goes in front; the older cells stay as they were. */
    method Move()
      requires |positions| >= 1
      modifies this`positions
      ensures positions == Moved(old(positions), direction)
    {
      var head := HeadPosition();
      var newHead := Cell((head.x + DX(direction) * GridSize) % ScreenWidth,
                          (head.y + DY(direction) * GridSize) % ScreenHeight);
      positions := [newHead] + positions;
    }

    function HeadPosition(): (h: Cell)
      requires |positions| >= 1
      reads this
      ensures h in positions
    {
      positions[0]
    }

    /** Back to one cell at the start cell with length 1, in any of the four headings. */
    method Reset()
      modifies this`length, this`positions, this`direction
      ensures Valid()
      ensures length == 1 && positions == [ScreenCenter]
      ensures direction in {Up, Down, Left, Right}
    {
      length := 1;
      positions := [ScreenCenter];
      var d: Dir :| d in {Up, Down, Left, Right};
      direction := d;
      AllCellsSize();
      AllCellsExactly(ScreenCenter);
    }
  }

  /** The game state of the loop: the snake and the positions of the two foods. */
  class Game {
    const snake: Snake
    var apple: Cell
    var melon: Cell

    ghost predicate Valid()
      reads this, snake
    {
      snake.Valid() && snake.nextDirection == None && OnGrid(apple) && OnGrid(melon)
    }

    ghost function State(): GameState
      reads this, snake
    {
      GameState(snake.positions, snake.length, snake.direction, apple, melon)
    }

    /**
     The apple, then the melon, then the snake. Both foods are placed with the
     default argument, which excludes no cell: they may share a cell with each
     other or with the snake's start cell.
     */
    constructor ()
      ensures Valid() && fresh(snake)
      ensures snake.length == 1 && snake.positions == [ScreenCenter]
      ensures snake.direction == Right
    {
      DefaultPlacementExcludesNothing(ScreenCenter);
      var a := PlaceFood(DefaultOccupied);
      var m := PlaceFood(DefaultOccupied);
      apple, melon := a, m;
      snake := new Snake();
    }

    /**
     The food test of a tick, on the moved body: the apple first, then only if
     it was not eaten the melon. An eaten food grows the length and is placed
     again outside the body and the other food; `starved` says that no cell was
     free for it, where the program ends with the length already grown.
     */
    method Eat() returns (starved: bool)
      requires |snake.positions| >= 1 && OnGrid(apple) && OnGrid(melon)
      modifies this, snake`length
      ensures OnGrid(apple) && OnGrid(melon)
      ensures starved == Starved(snake.positions, old(apple), old(melon))
      ensures
        var head := snake.positions[0];
        && (head == old(apple) ==> snake.length == old(snake.length) + AppleGrowth)
        && (head != old(apple) && head == old(melon) ==> snake.length == old(snake.length) + MelonGrowth)
        && (head != old(apple) && head != old(melon) ==> snake.length == old(snake.length))
        && (if head == old(apple) && !starved
            then apple !in snake.positions && apple != melon && melon == old(melon)
            else apple == old(apple))
        && (if head != old(apple) && head == old(melon) && !starved
            then melon !in snake.positions && melon != apple && apple == old(apple)
            else melon == old(melon))
    {
      starved := false;
      var head := snake.HeadPosition();
      if head == apple {
        snake.length := snake.length + AppleGrowth;
        var occupied := CellSet(snake.positions) + {melon};
        if AllCells() - occupied == {} {
          return true;
        }
        apple := PlaceFood(occupied);
      } else if head == melon {
        snake.length := snake.length + MelonGrowth;
        var occupied := CellSet(snake.positions) + {apple};
        if AllCells() - occupied == {} {
          return true;
        }
        melon := PlaceFood(occupied);
      }
    }

    /** One pass of the game loop, drawing and pacing left out. */
    method Tick(keys: seq<Key>) returns (outcome: TickOutcome)
      requires Valid()
      modifies this, snake
      ensures Valid()
      ensures TickStep(old(State()), keys, outcome, State())
    {
      ghost var s0 := State();
      snake.HandleKeys(keys);
      snake.UpdateDirection();
      ghost var heading := snake.direction;
      assert heading == NextHeading(s0.direction, keys);
      MovedOnGrid(snake.positions, heading);
      snake.Move();
      ghost var moved := snake.positions;
      assert moved == Moved(s0.positions, heading);
      ghost var grown := s0.length + Growth(moved[0], s0.apple, s0.melon);

      var starved := Eat();
      if starved {
        return NoFreeCell;
      }
      assert snake.length == grown;
      if |snake.positions| > snake.length {
        snake.positions := snake.positions[..|snake.positions| - 1];
      }
      assert snake.positions == TrimTail(moved, grown);
      assert AllOnGrid(snake.positions) by {
        TrimTailOnGrid(moved, grown);
      }

      if snake.HeadPosition() in snake.positions[1..] {
        snake.Reset();
        outcome := Restarted;
      } else {
        outcome := Continued;
      }
    }

    /**
     The game loop over a finite run of polls, one tick per poll. The loop itself
     never ends; here it stops with the polls, or when a food finds no free cell.
     The ghost results record the state before and after every tick run, with
     its outcome: `ticks` ticks completed, and one more that ran out of cells
     when the outcome is NoFreeCell.
     */
    method Run(polls: seq<seq<Key>>)
      returns (outcome: TickOutcome, ticks: nat, ghost trace: seq<GameState>, ghost outcomes: seq<TickOutcome>)
      requires Valid()
      modifies this, snake
      ensures Valid()
      ensures Replays(trace, polls, outcomes)
      ensures trace[0] == old(State()) && trace[|outcomes|] == State()
      ensures outcome != NoFreeCell ==> ticks == |polls| == |outcomes|
      ensures outcome == NoFreeCell ==> ticks < |polls| && |outcomes| == ticks + 1 && outcomes[ticks] == NoFreeCell
      ensures NoFreeCell !in outcomes[..ticks]
      ensures forall i :: 0 <= i < |trace| ==> OnBoard(trace[i])
    {
      outcome, ticks := Continued, 0;
      trace, outcomes := [State()], [];
      assert OnBoard(trace[0]);
      while ticks < |polls|
        invariant Valid() && ticks <= |polls| && outcome != NoFreeCell
        invariant Replays(trace, polls, outcomes) && |outcomes| == ticks
        invariant trace[0] == old(State()) && trace[ticks] == State()
        invariant NoFreeCell !in outcomes && OnBoard(trace[0])
      {
        outcome := Tick(polls[ticks]);
        ReplaysExtend(trace, polls, outcomes, State(), outcome);
        trace, outcomes := trace + [State()], outcomes + [outcome];
        if outcome == NoFreeCell {
          ReplaysKeepBoard(trace, polls, outcomes);
          return;
        }
        ticks := ticks + 1;
      }
      ReplaysKeepBoard(trace, polls, outcomes);
    }
  }
}
