# Big chess: a verified model of the rules engine

This project models the game-rules engine of a chess variant played on a
16×16 board with eleven piece kinds: king, queen, rook, bishop, knight, pawn,
and five "magical" kinds (mage, dragon, necromancer, archangel, warlock). The
engine lives in `src/pages/Index.tsx`. It has four parts:

- the starting position (`initializeBoard`);
- move legality (`isValidMove` and its path scan `isPathClear`);
- move application (`makeMove`): the board, the capture lists and the side to move;
- the random bot (`makeBotMove`).

Files and modules:

- `wrappers.dfy` (`Wrappers`): the `Option` type.
- `pieces.dfy` (`Pieces`): colours, kinds, pieces as values, coordinates
  `0..15`, and the board as a 16×16 `array2` of optional pieces.
- `rules.dfy` (`Rules`): the geometry, the path scan as a loop, `IsValidMove`
  as a pure function with the board and the side to move as explicit
  parameters, and lemmas for each kind's rule.
- `layout.dfy` (`Layout`): the starting position, built by writing into a
  fresh array, and its properties.
- `moves.dfy` (`Moves`): what a move does to the grid, as a relation between
  the board before and the board after.
- `census.dfy` (`Census`): the squares holding one colour's pieces, in the
  row-major order the bot collects them, and how a move changes their number.
- `bot.dfy` (`Bot`): the scan for black pieces, the sampling loop, and the
  bot as the source runs it (see Findings).
- `game.dfy` (`Play`): the class `Game` holding the component's state (board,
  side to move, capture lists) and the methods that change it.

`Math.random` is a parameter `rand: nat -> Unit`. Its i-th value is the i-th
number the source would draw, a real in [0, 1). Attempt `i` of the bot uses
draws `3i`, `3i+1` and `3i+2`, in the source's order: piece, row, column.

Points of the code that the model keeps as written:

- A pawn's two-square advance checks only the target square. The square it
  passes over is not looked at (`src/pages/Index.tsx:164-167`).
- `botDifficulty` is stored (`src/pages/Index.tsx:61`, `:305`) but
  `makeBotMove` never reads it. The only bot is the random one.
- `makeMove` does not return the captured piece. It appends it to the
  mover's capture list and passes the turn itself.

## Model

| member | source | states |
|---|---|---|
| `Rules.IsValidMove` | src/pages/Index.tsx:151-216 | a legal move starts from a piece of the side to move, does not land on a piece of that side, and is never a null move (`from == to`) |
| `Rules.IsPathClear` | src/pages/Index.tsx:218-232 | for squares on one rank, file or diagonal, the scan answers true exactly when every square strictly between them is empty; it reads only squares strictly between them, at most `max(rowDiff, colDiff) - 1` of them, and all of them when it answers true |
| `Rules.RuleTable` | src/pages/Index.tsx:172-185 | for every kind except pawn and mage, a move is legal exactly when the target holds no own piece, the move has the kind's shape (rook and warlock: same row or column; bishop and necromancer: diagonal; queen, archangel and dragon: either; knight: a (2,1) jump; king: one step) and, for the six sliding kinds only, the path is clear |
| `Rules.SliderBlocked` | src/pages/Index.tsx:175-211 | for rook, bishop, queen, necromancer, archangel and warlock, any piece, of either colour, strictly between the two squares makes the move illegal |
| `Rules.EndpointsDecide` | src/pages/Index.tsx:162-200 | pawn, knight, king and dragon moves depend only on the two end squares: two boards that agree there agree on legality, whatever stands in between |
| `Rules.PawnRule` | src/pages/Index.tsx:162-170 | a pawn move is legal exactly when it is one step forward onto an empty square, two steps forward from row 14 (white) or row 1 (black) onto an empty square, or one step diagonally forward onto an enemy piece |
| `Rules.PawnAdvances` | src/pages/Index.tsx:162-170 | a legal pawn move goes forward by one or two rows, and by two only straight ahead from the start row |
| `Rules.PlainMageIsBishop` | src/pages/Index.tsx:187-194 | a mage that cannot teleport moves exactly like a bishop, so it never makes a non-diagonal move |
| `Rules.TeleportIgnoresBlockers` | src/pages/Index.tsx:187-194 | a teleporting mage may go to any square within three rows and three columns that holds no own piece, whatever stands in between |
| `Rules.MageBeyondTeleport` | src/pages/Index.tsx:187-194 | beyond three rows or three columns a mage moves only along a clear diagonal |
| `Rules.MageScenario` | src/pages/Index.tsx:187-194 | a white mage without teleport on (8,8) may take a black pawn on (5,5) over an empty diagonal, but may not move to (8,5) |
| `Layout.PlaceBackRank` | src/pages/Index.tsx:97-112 | row `row` receives the back-rank sequence of the given colour, with the flags of each kind; other rows are untouched |
| `Layout.PlacePawns` | src/pages/Index.tsx:115-117 | row `row` receives sixteen pawns of the given colour; other rows are untouched |
| `Layout.InitialBoard` | src/pages/Index.tsx:92-139 | a fresh 16×16 board whose every square is that of the starting position |
| `Layout.InitialCountBelow` | src/pages/Index.tsx:92-139 | scanning the starting position in row-major order, the first `k` squares hold `min(k, 32)` black pieces and `max(0, k - 224)` white pieces |
| `Layout.InitialPopulation` | src/pages/Index.tsx:92-139 | on the starting position each side has 32 pieces |
| `Layout.InitialSymmetry` | src/pages/Index.tsx:92-139 | rows 2 to 13 are empty and the others full; reflecting the rows (row ↦ 15 − row) and swapping colours gives the same position; every piece starts unmoved with the flags of its kind (mages teleport, dragons fly, necromancers revive with count 0) |
| `Layout.OpeningPawnMoves` | src/pages/Index.tsx:162-170 | on the starting board every white pawn may advance one or two rows but not three, every black pawn may advance two, and neither side may move the other's pawns |
| `Moves.NoReplay` | src/pages/Index.tsx:262-263 | after a move its source square is empty, so replaying the move, or any move from that square, is illegal for both sides |
| `Moves.LegalMoveOutcome` | src/pages/Index.tsx:151-156 | after a legal move the target holds the mover's piece marked as moved, and whatever stood there was an enemy piece |
| `Moves.OpponentUntouched` | src/pages/Index.tsx:262-263 | after a move by one side, every piece of the other side stands unchanged on the square it stood on before |
| `Census.CountOffTwo` | src/pages/Index.tsx:249-263 | two boards that differ at most on two squares hold the same number of pieces of each colour elsewhere |
| `Census.MoveCounts` | src/pages/Index.tsx:248-263 | a legal move keeps every piece of the mover, and the other side loses exactly one piece when the target was occupied and none otherwise |
| `Bot.Pick` | src/pages/Index.tsx:289-291 | `Math.floor(u * n)` for a draw `u` in [0, 1) is an index below `n` |
| `Bot.SampleAt` | src/pages/Index.tsx:289-291 | the piece an attempt tries to move is always one of the candidates |
| `Census.PiecesOfExactly` | src/pages/Index.tsx:277-284 | the bot's candidate list holds exactly the squares with a piece of the colour, each once, in row-major order |
| `Bot.CollectPieces` | src/pages/Index.tsx:277-284 | the nested scan returns that candidate list |
| `Bot.SampleMove` | src/pages/Index.tsx:287-300 | at most 20 attempts per candidate; the move returned is legal and is the first legal sample; when nothing is returned all `20 × count` samples were illegal |
| `Bot.ChooseBotMove` | src/pages/Index.tsx:276-300 | the bot's choice for black on the current board is legal for black and is the first legal sample; with no legal black move anywhere it returns nothing |
| `Bot.ChooseBotMoveAsWritten` | src/pages/Index.tsx:272-293 | the bot as the source runs it, checking samples against the board from before white's move with white still to move, never returns a move |
| `Bot.StaleCheckRejects` | src/pages/Index.tsx:151-153 | that stale check rejects every square holding a black piece after white's move |
| `Bot.StaleBotExample` | src/pages/Index.tsx:270-293 | after the opening (14,0)-(13,0) black has the legal reply (1,0)-(2,0), which the stale check rejects |
| `Play.Game.constructor` | src/pages/Index.tsx:62-64 | before a game starts there is no board, white is to move and nothing has been taken |
| `Play.Game.InitializeBoard` | src/pages/Index.tsx:92-142 | the board becomes a fresh starting position; side to move and capture lists are left as they were |
| `Play.Game.MakeMove` | src/pages/Index.tsx:248-268 | on a fresh copy of the board the piece goes to the target marked as moved and the source is emptied, every other square is unchanged, a piece on the target is appended to the mover's capture list while the other list is unchanged, and the side to move flips |
| `Play.Game.MakeBotMove` | src/pages/Index.tsx:276-300 | the corrected bot turn, with black to move: a move it plays is legal for black, is applied as `MakeMove` applies it, is credited to black's capture list and passes the turn to white; when it finds none, nothing changes |

## Findings

| source | as written | input that shows it | evidently intended | confidence | as-written member | corrected member |
|---|---|---|---|---|---|---|
| src/pages/Index.tsx:270-293 | the bot runs from a timer set by `makeMove`, so it uses the `isValidMove` of the render in which white moved; that function sees the board from before white's move and `currentTurn` still `'white'`, so every black candidate fails the colour check | starting position in bot mode, white plays (14,0)-(13,0): black's (1,0)-(2,0) is legal, but every sample is rejected and the bot never replies | test black's samples on the board after white's move, with black to move | high; not executed | `Bot.ChooseBotMoveAsWritten` | `Bot.ChooseBotMove` |

The corrected bot is the one `Play.Game.MakeBotMove` uses; it runs only
with black to move, so its move is credited to black and passes the turn to
white. The stale `makeMove` that the as-written bot would call is never
reached, because the stale check never accepts a sample, so it is not
modelled.

## Left out

- `backend/game/index.py` (HTTP handler over a database) and
  `src/utils/audioManager.ts` (sound synthesis) are not part of this model.
- Rendering, dialogs, tabs, achievements, player statistics,
  `unlockAchievement`, `handleSquareClick`, `startGame` and the online-mode
  stub are user-interface state and are not modelled.
- The notifications (`toast`) are left out, including the one in the mage
  branch of `isValidMove`. Legality is a pure function here.
- The timers that pace the bot and the `setSelectedPos` call in the bot are
  presentation. The bot is triggered only after white's move in bot mode
  (`src/pages/Index.tsx:270-273`). Here the caller invokes
  `Play.Game.MakeBotMove` instead.
- `Math.random` returns IEEE doubles. The model's draws are exact reals in
  [0, 1), so rounding in `Math.floor(Math.random() * n)` is not modelled.
- `Play.Game.MakeMove`: the copy is shallow in the source, so setting
  `hasMoved` also changes the piece object on the old board. Pieces are values
  here, and the old board keeps the unmoved piece.
- `Play.Game.MakeMove` requires a piece on the source square or an empty
  target. With an empty source and an occupied target, the source fails while
  building the capture notification. Both callers only play moves that
  `isValidMove` accepted, and such a move always has a piece on its source.
- The capability flags `canFly`, `canRevive` and `reviveCount` are kept with
  their starting values only. No code reads them.
- The `default` branch of the kind switch is unreachable here, because the
  kinds form a closed datatype.
- Coordinates outside 0..15 cannot be written down (`Pieces.Coord`), so
  out-of-range accesses are not modelled.
- `Layout.PlaceBackRank` writes the sixteen back-rank squares as one
  simultaneous update rather than sixteen separate assignments.
