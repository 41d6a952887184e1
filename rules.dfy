/**
 * Move legality: the per-kind rules of `isValidMove` and the path scan of
 * `isPathClear` (src/pages/Index.tsx:151-232).
 */
module Rules {
  import opened Wrappers
  import opened Pieces

  // ---------------------------------------------------------------------
  // Geometry
  // ---------------------------------------------------------------------

  function Abs(x: int): nat {
    if x < 0 then -x else x
  }

  function RowDiff(from: Pos, to: Pos): nat {
    Abs(to.row - from.row)
  }

  function ColDiff(from: Pos, to: Pos): nat {
    Abs(to.col - from.col)
  }

  /** Chebyshev distance: the number of king steps between two squares. */
  function Dist(from: Pos, to: Pos): nat {
    if RowDiff(from, to) < ColDiff(from, to) then ColDiff(from, to) else RowDiff(from, to)
  }

  /** Rook geometry: same row or same column. */
  predicate SameLine(from: Pos, to: Pos) {
    from.row == to.row || from.col == to.col
  }

  /** Bishop geometry. */
  predicate SameDiagonal(from: Pos, to: Pos) {
    RowDiff(from, to) == ColDiff(from, to)
  }

  /** Queen geometry: the two squares share a rank, file or diagonal. */
  predicate Aligned(from: Pos, to: Pos) {
    SameLine(from, to) || SameDiagonal(from, to)
  }

  /** -1, 0 or 1: the direction of one coordinate. */
  function Sign(x: int): int {
    if x > 0 then 1 else if x < 0 then -1 else 0
  }

  /**
   * `s` lies strictly inside the segment from `from` to `to`: it is aligned
   * with `from`, points in the same direction as `to` does, and is nearer.
   */
  predicate StrictlyBetween(from: Pos, to: Pos, s: Pos) {
    && s != from
    && Aligned(from, s)
    && Sign(s.row - from.row) == Sign(to.row - from.row)
    && Sign(s.col - from.col) == Sign(to.col - from.col)
    && Dist(from, s) < Dist(from, to)
  }

  /** Every square strictly between `from` and `to` is empty. */
  predicate PathClear(b: Grid, from: Pos, to: Pos)
    requires IsGrid(b)
    reads b
  {
    forall r: int, c: int | 0 <= r < Size && 0 <= c < Size ::
      StrictlyBetween(from, to, Pos(r, c)) ==> b[r, c].None?
  }

  // ---------------------------------------------------------------------
  // The ray that `isPathClear` walks
  // ---------------------------------------------------------------------

  /** `x` moved `k` unit steps in direction `step`. */
  function Advance(x: int, step: int, k: int): int {
    if step > 0 then x + k else if step < 0 then x - k else x
  }

  /** The square `k` steps from `from` towards `to`. */
  function Ray(from: Pos, to: Pos, k: int): (s: Pos)
    requires Aligned(from, to) && 0 <= k <= Dist(from, to)
    ensures Dist(from, s) == k
  {
    Pos(Advance(from.row, Sign(to.row - from.row), k),
        Advance(from.col, Sign(to.col - from.col), k))
  }

  lemma RayEnds(from: Pos, to: Pos)
    requires Aligned(from, to)
    ensures Ray(from, to, Dist(from, to)) == to
  {
  }

  lemma RayInside(from: Pos, to: Pos, k: int)
    requires Aligned(from, to) && 0 < k < Dist(from, to)
    ensures StrictlyBetween(from, to, Ray(from, to, k))
  {
  }

  /** Every square strictly between two aligned squares lies on the ray. */
  lemma BetweenOnRay(from: Pos, to: Pos, s: Pos)
    requires Aligned(from, to) && StrictlyBetween(from, to, s)
    ensures 0 < Dist(from, s) < Dist(from, to)
    ensures s == Ray(from, to, Dist(from, s))
  {
  }

  /** The first `n` squares of the ray, in order. */
  ghost predicate RayPrefix(from: Pos, to: Pos, probed: seq<Pos>)
    requires Aligned(from, to) && |probed| <= Dist(from, to)
  {
    forall k :: 0 <= k < |probed| ==> probed[k] == Ray(from, to, k + 1)
  }

  lemma RayPrefixBetween(from: Pos, to: Pos, probed: seq<Pos>)
    requires Aligned(from, to) && |probed| < Dist(from, to)
    requires RayPrefix(from, to, probed)
    ensures forall k :: 0 <= k < |probed| ==> StrictlyBetween(from, to, probed[k])
  {
    forall k | 0 <= k < |probed| ensures StrictlyBetween(from, to, probed[k]) {
      RayInside(from, to, k + 1);
    }
  }

  /** Once the whole inside of the ray is seen to be empty, the path is clear. */
  lemma RayPrefixClear(b: Grid, from: Pos, to: Pos, probed: seq<Pos>)
    requires IsGrid(b) && Aligned(from, to) && from != to
    requires |probed| == Dist(from, to) - 1 && RayPrefix(from, to, probed)
    requires forall k :: 0 <= k < |probed| ==> b[probed[k].row, probed[k].col].None?
    ensures PathClear(b, from, to)
  {
    forall r: int, c: int | 0 <= r < Size && 0 <= c < Size && StrictlyBetween(from, to, Pos(r, c))
      ensures b[r, c].None?
    {
      BetweenOnRay(from, to, Pos(r, c));
      assert probed[Dist(from, Pos(r, c)) - 1] == Pos(r, c);
    }
  }

  /**
   * The scan of `isPathClear`: step one square at a time from `from` towards
   * `to`, exclusive of both ends, and fail on the first occupied square.
   * `probed` lists the squares read, in order.
   */
  method IsPathClear(b: Grid, from: Pos, to: Pos) returns (clear: bool, ghost probed: seq<Pos>)
    requires IsGrid(b)
    requires Aligned(from, to)
    ensures clear <==> PathClear(b, from, to)
    ensures forall k :: 0 <= k < |probed| ==> StrictlyBetween(from, to, probed[k])
    ensures from == to ==> probed == []
    ensures from != to ==> |probed| <= Dist(from, to) - 1
    ensures clear && from != to ==> |probed| == Dist(from, to) - 1
  {
    var rowStep := if to.row > from.row then 1 else if to.row < from.row then -1 else 0;
    var colStep := if to.col > from.col then 1 else if to.col < from.col then -1 else 0;
    var row := from.row + rowStep;
    var col := from.col + colStep;
    probed := [];
    RayEnds(from, to);
    while row != to.row || col != to.col
      invariant from == to ==> row == to.row && col == to.col && probed == []
      invariant from != to ==> |probed| < Dist(from, to)
      invariant from != to ==> row == Ray(from, to, |probed| + 1).row
      invariant from != to ==> col == Ray(from, to, |probed| + 1).col
      invariant RayPrefix(from, to, probed)
      invariant forall k :: 0 <= k < |probed| ==> b[probed[k].row, probed[k].col].None?
      decreases Dist(from, to) - |probed|
    {
      RayInside(from, to, |probed| + 1);
      var here := Ray(from, to, |probed| + 1);
      if b[row, col] != None {
        RayPrefixBetween(from, to, probed + [here]);
        assert !PathClear(b, from, to);
        return false, probed + [here];
      }
      probed := probed + [here];
      row := row + rowStep;
      col := col + colStep;
    }
    if from != to {
      RayPrefixBetween(from, to, probed);
      RayPrefixClear(b, from, to, probed);
    }
    return true, probed;
  }

  // ---------------------------------------------------------------------
  // isValidMove
  // ---------------------------------------------------------------------

  /** The row direction a pawn of colour `c` advances in. */
  function Forward(c: Color): int {
    if c == White then -1 else 1
  }

  /** The rank a pawn of colour `c` starts on. */
  function StartRow(c: Color): Coord {
    if c == White then 14 else 1
  }

  /** The pawn branch; `occupied` says whether `to` holds a piece. */
  predicate PawnAllows(c: Color, from: Pos, to: Pos, occupied: bool) {
    || (to.col == from.col && !occupied &&
        (|| to.row == from.row + Forward(c)
         || (from.row == StartRow(c) && to.row == from.row + 2 * Forward(c))))
    || (Abs(to.col - from.col) == 1 && to.row == from.row + Forward(c) && occupied)
  }

  /** The switch on the piece kind, once the colour checks have passed. */
  predicate KindAllows(b: Grid, piece: Piece, from: Pos, to: Pos)
    requires IsGrid(b)
    reads b
  {
    var rowDiff, colDiff := RowDiff(from, to), ColDiff(from, to);
    match piece.kind
    case Pawn => PawnAllows(piece.color, from, to, b[to.row, to.col].Some?)
    case Rook => SameLine(from, to) && PathClear(b, from, to)
    case Bishop => rowDiff == colDiff && PathClear(b, from, to)
    case Knight => (rowDiff == 2 && colDiff == 1) || (rowDiff == 1 && colDiff == 2)
    case Queen => (SameLine(from, to) || rowDiff == colDiff) && PathClear(b, from, to)
    case King => rowDiff <= 1 && colDiff <= 1
    case Mage =>
      || (rowDiff == colDiff && PathClear(b, from, to))
      || (piece.canTeleport && rowDiff <= 3 && colDiff <= 3)
    case Dragon => SameLine(from, to) || rowDiff == colDiff
    case Necromancer => rowDiff == colDiff && PathClear(b, from, to)
    case Archangel => (SameLine(from, to) || rowDiff == colDiff) && PathClear(b, from, to)
    case Warlock => SameLine(from, to) && PathClear(b, from, to)
  }

  /**
   * Whether side `side` may move the piece on `from` to `to`. The source reads
   * the board and the side to move from the component's state; here they are
   * parameters.
   */
  function IsValidMove(b: Grid, side: Color, from: Pos, to: Pos): (legal: bool)
    requires IsGrid(b)
    reads b
    ensures legal ==> HasColor(b[from.row, from.col], side)
    ensures legal ==> !HasColor(b[to.row, to.col], side)
    ensures legal ==> from != to
  {
    match b[from.row, from.col]
    case None => false
    case Some(piece) =>
      if piece.color != side then false
      else if HasColor(b[to.row, to.col], piece.color) then false
      else KindAllows(b, piece, from, to)
  }

  // ---------------------------------------------------------------------
  // The rules as a table, and what follows from them
  // ---------------------------------------------------------------------

  /** The shapes a non-pawn, non-mage piece can move in. */
  datatype Shape = Orthogonal | Diagonal | Straight | KnightLeap | KingStep

  predicate Fits(shape: Shape, from: Pos, to: Pos) {
    match shape
    case Orthogonal => SameLine(from, to)
    case Diagonal => SameDiagonal(from, to)
    case Straight => Aligned(from, to)
    case KnightLeap => Dist(from, to) == 2 && RowDiff(from, to) + ColDiff(from, to) == 3
    case KingStep => Dist(from, to) <= 1
  }

  /** A movement rule: where the piece may go and whether it is blocked. */
  datatype Rule = Rule(shape: Shape, needsClearPath: bool)

  function RuleOf(k: Kind): Rule
    requires k != Pawn && k != Mage
  {
    match k
    case Rook => Rule(Orthogonal, true)
    case Warlock => Rule(Orthogonal, true)
    case Bishop => Rule(Diagonal, true)
    case Necromancer => Rule(Diagonal, true)
    case Queen => Rule(Straight, true)
    case Archangel => Rule(Straight, true)
    case Knight => Rule(KnightLeap, false)
    case King => Rule(KingStep, false)
    case Dragon => Rule(Straight, false)
  }

  /** The sliding kinds: those whose path must be clear. */
  predicate IsSlider(k: Kind) {
    k in {Rook, Bishop, Queen, Necromancer, Archangel, Warlock}
  }

  /**
   * For every kind but pawn and mage, a move of one's own piece is legal
   * exactly when the target holds no piece of one's own, the move has the
   * kind's shape and, for a sliding kind, the path is clear.
   */
  lemma RuleTable(b: Grid, side: Color, from: Pos, to: Pos)
    requires IsGrid(b) && HasColor(b[from.row, from.col], side)
    requires b[from.row, from.col].value.kind !in {Pawn, Mage}
    ensures var rule := RuleOf(b[from.row, from.col].value.kind);
      IsValidMove(b, side, from, to) <==>
        && !HasColor(b[to.row, to.col], side)
        && Fits(rule.shape, from, to)
        && (rule.needsClearPath ==> PathClear(b, from, to))
    ensures RuleOf(b[from.row, from.col].value.kind).needsClearPath <==>
      IsSlider(b[from.row, from.col].value.kind)
  {
  }

  /** A piece on any square strictly between the ends blocks every slider. */
  lemma SliderBlocked(b: Grid, side: Color, from: Pos, to: Pos, s: Pos)
    requires IsGrid(b) && b[from.row, from.col].Some?
    requires IsSlider(b[from.row, from.col].value.kind)
    requires StrictlyBetween(from, to, s) && b[s.row, s.col].Some?
    ensures !IsValidMove(b, side, from, to)
  {
  }

  /**
   * Pawns, knights, kings and dragons look only at the two end squares: two
   * boards that agree there agree on the move, whatever lies in between.
   */
  lemma EndpointsDecide(b1: Grid, b2: Grid, side: Color, from: Pos, to: Pos)
    requires IsGrid(b1) && IsGrid(b2)
    requires b1[from.row, from.col] == b2[from.row, from.col]
    requires b1[to.row, to.col] == b2[to.row, to.col]
    requires b1[from.row, from.col].Some?
    requires b1[from.row, from.col].value.kind in {Pawn, Knight, King, Dragon}
    ensures IsValidMove(b1, side, from, to) == IsValidMove(b2, side, from, to)
  {
  }

  /**
   * The pawn: one step forward onto an empty square, two steps forward from
   * its start rank onto an empty square (the square passed over is not
   * looked at), or one step diagonally forward onto an enemy piece.
   */
  lemma PawnRule(b: Grid, side: Color, from: Pos, to: Pos)
    requires IsGrid(b) && HasColor(b[from.row, from.col], side)
    requires b[from.row, from.col].value.kind == Pawn
    ensures IsValidMove(b, side, from, to) <==>
      || (&& to.col == from.col && b[to.row, to.col].None?
          && (|| to.row == from.row + Forward(side)
              || (from.row == StartRow(side) && to.row == from.row + 2 * Forward(side))))
      || (&& ColDiff(from, to) == 1 && to.row == from.row + Forward(side)
          && HasColor(b[to.row, to.col], Opposite(side)))
  {
  }

  /** A pawn never moves backwards, sideways, or more than two rows. */
  lemma PawnAdvances(b: Grid, side: Color, from: Pos, to: Pos)
    requires IsGrid(b) && HasColor(b[from.row, from.col], side)
    requires b[from.row, from.col].value.kind == Pawn
    requires IsValidMove(b, side, from, to)
    ensures to.row == from.row + Forward(side) || to.row == from.row + 2 * Forward(side)
    ensures to.row == from.row + 2 * Forward(side) ==> from.row == StartRow(side) && to.col == from.col
  {
  }

  /** A mage that cannot teleport moves exactly like a bishop. */
  lemma PlainMageIsBishop(b: Grid, side: Color, from: Pos, to: Pos)
    requires IsGrid(b) && HasColor(b[from.row, from.col], side)
    requires b[from.row, from.col].value.kind == Mage
    requires !b[from.row, from.col].value.canTeleport
    ensures IsValidMove(b, side, from, to) <==>
      !HasColor(b[to.row, to.col], side) && SameDiagonal(from, to) && PathClear(b, from, to)
  {
  }

  /**
   * A teleporting mage reaches every square within three rows and three
   * columns that holds no piece of its own, whatever stands in the way.
   */
  lemma TeleportIgnoresBlockers(b: Grid, side: Color, from: Pos, to: Pos)
    requires IsGrid(b) && HasColor(b[from.row, from.col], side)
    requires b[from.row, from.col].value.kind == Mage
    requires b[from.row, from.col].value.canTeleport
    requires Dist(from, to) <= 3
    ensures IsValidMove(b, side, from, to) <==> !HasColor(b[to.row, to.col], side)
  {
  }

  /** Beyond teleport range a mage is a bishop again. */
  lemma MageBeyondTeleport(b: Grid, side: Color, from: Pos, to: Pos)
    requires IsGrid(b) && HasColor(b[from.row, from.col], side)
    requires b[from.row, from.col].value.kind == Mage
    requires Dist(from, to) > 3
    ensures IsValidMove(b, side, from, to) <==>
      !HasColor(b[to.row, to.col], side) && SameDiagonal(from, to) && PathClear(b, from, to)
  {
  }

  /**
   * A lone white mage without teleport on (8,8) and a black pawn on (5,5):
   * the mage may take the pawn along the diagonal, but may not step three
   * squares sideways to (8,5).
   */
  lemma MageScenario(b: Grid)
    requires IsGrid(b)
    requires b[8, 8] == Some(Piece(Mage, White, false, false, false, false, None))
    requires b[5, 5] == Some(NewPiece(Pawn, Black))
    requires forall r: Coord, c: Coord :: (r, c) != (8, 8) && (r, c) != (5, 5) ==> b[r, c].None?
    ensures IsValidMove(b, White, Pos(8, 8), Pos(5, 5))
    ensures !IsValidMove(b, White, Pos(8, 8), Pos(8, 5))
  {
    assert PathClear(b, Pos(8, 8), Pos(5, 5));
  }
}
