/**
 * The game state the component keeps (board, side to move, captured pieces)
 * and the operations that change it: `initializeBoard`, `makeMove` and the
 * bot's turn (src/pages/Index.tsx:62-64, 92-142, 248-301).
 */
module Play {
  import opened Wrappers
  import opened Pieces
  import opened Rules
  import opened Layout
  import opened Moves
  import opened Bot

  /** The piece a move takes, as a list of zero or one pieces. */
  function Taken(cell: Option<Piece>): seq<Piece> {
    match cell
    case None => []
    case Some(p) => [p]
  }

  class Game {
    var board: Grid
    var turn: Color
    /** The pieces white has taken. */
    var whiteCaptures: seq<Piece>
    /** The pieces black has taken. */
    var blackCaptures: seq<Piece>

    ghost predicate Valid()
      reads this
    {
      IsGrid(board)
    }

    /** The pieces side `c` has taken, oldest first. */
    function Captures(c: Color): seq<Piece>
      reads this
    {
      if c == White then whiteCaptures else blackCaptures
    }

    /** The state before a game starts: no board yet, white to move, nothing taken. */
    constructor ()
      ensures board.Length0 == 0 && board.Length1 == 0
      ensures turn == White && whiteCaptures == [] && blackCaptures == []
    {
      board := new Option<Piece>[0, 0];
      turn := White;
      whiteCaptures, blackCaptures := [], [];
    }

    /**
     * Puts a fresh starting position on the board. As in the source, the side
     * to move and the capture lists are left as they were.
     */
    method InitializeBoard()
      modifies this
      ensures Valid() && fresh(board)
      ensures IsInitial(board)
      ensures turn == old(turn)
      ensures whiteCaptures == old(whiteCaptures) && blackCaptures == old(blackCaptures)
    {
      board := InitialBoard();
    }

    /**
     * Plays `from`-`to` without checking it: on a copy of the board the piece
     * on `from` goes to `to`, marked as moved, and `from` is emptied; a piece
     * that stood on `to` is added to the mover's captures; the turn passes.
     * The source's callers only call it for a move `isValidMove` accepted;
     * with no piece on `from` and a piece on `to` the source fails while
     * announcing the capture, so that case is excluded.
     */
    method MakeMove(from: Pos, to: Pos)
      requires Valid()
      requires board[from.row, from.col].Some? || board[to.row, to.col].None?
      modifies this
      ensures Valid() && fresh(board)
      ensures MoveApplied(old(board), board, from, to)
      ensures turn == Opposite(old(turn))
      ensures Captures(old(turn)) == old(Captures(turn)) + Taken(old(board[to.row, to.col]))
      ensures Captures(Opposite(old(turn))) == old(Captures(Opposite(turn)))
    {
      var current := board;
      var next := new Option<Piece>[Size, Size](
        (r: nat, c: nat) requires r < Size && c < Size reads current => current[r, c]);
      var piece := next[from.row, from.col];
      var captured := next[to.row, to.col];
      if captured.Some? {
        if turn == White {
          whiteCaptures := whiteCaptures + [captured.value];
        } else {
          blackCaptures := blackCaptures + [captured.value];
        }
      }
      next[to.row, to.col] := Moved(piece);
      next[from.row, from.col] := None;
      board := next;
      turn := Opposite(turn);
    }

    /**
     * The bot's turn, taken with black to move and the legality check made
     * for black on the current board: if a sample is legal it is played,
     * otherwise nothing changes.
     */
    method MakeBotMove(rand: nat -> Unit) returns (played: Option<Move>)
      requires Valid() && turn == Black
      modifies this
      ensures Valid()
      ensures played.Some? ==>
        && IsValidMove(old(board), Black, played.value.from, played.value.to)
        && fresh(board)
        && MoveApplied(old(board), board, played.value.from, played.value.to)
        && turn == White
        && blackCaptures == old(blackCaptures) + Taken(old(board[played.value.to.row, played.value.to.col]))
        && whiteCaptures == old(whiteCaptures)
      ensures played.None? ==>
        && board == old(board) && turn == old(turn)
        && whiteCaptures == old(whiteCaptures) && blackCaptures == old(blackCaptures)
      ensures (forall from: Pos, to: Pos :: !IsValidMove(old(board), Black, from, to)) ==> played.None?
    {
      var tried;
      played, tried := ChooseBotMove(board, rand);
      if played.Some? {
        MakeMove(played.value.from, played.value.to);
      }
    }
  }
}
