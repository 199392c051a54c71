/**
 * The puzzle state machine (Assets/Scripts/Puzzle/PuzzleManager.cs): shuffling, piece
 * selection, swapping, the win check, completion and the move to the next level.
 *
 * The state of the pieces is summed up by the grid's arrangement: the correct index of the
 * piece in each slot. The random draws of the shuffle are supplied by the caller.
 */
module PuzzleManagement {

  import opened Wrappers
  import opened Engine
  import opened Pieces
  import opened Grid
  import opened Levels
  import opened Progress
  import opened GameManagement

  /** The arrangement with the contents of slots i and j exchanged. */
  function SwapAt(s: seq<int>, i: int, j: int): (r: seq<int>)
    requires 0 <= i < |s| && 0 <= j < |s|
    ensures |r| == |s| && r[i] == s[j] && r[j] == s[i]
    ensures forall k :: 0 <= k < |s| && k != i && k != j ==> r[k] == s[k]
  {
    s[i := s[j]][j := s[i]]
  }

  /** Exchanging two slots keeps the arrangement a permutation of [0, N). */
  lemma SwapKeepsPermutation(s: seq<int>, i: int, j: int)
    requires IsPermutationOfRange(s) && 0 <= i < |s| && 0 <= j < |s|
    ensures IsPermutationOfRange(SwapAt(s, i, j))
  {
    var r := SwapAt(s, i, j);
    forall a, b | 0 <= a < b < |r| ensures r[a] != r[b] {
      var a' := if a == i then j else if a == j then i else a;
      var b' := if b == i then j else if b == j then i else b;
      assert r[a] == s[a'] && r[b] == s[b'] && a' != b';
    }
  }

  /** Every drawn pair of slots lies in [0, n). */
  predicate ValidDraws(draws: seq<(int, int)>, n: nat)
  {
    forall k :: 0 <= k < |draws| ==> 0 <= draws[k].0 < n && 0 <= draws[k].1 < n
  }

  /** Each round holds 3 * n draws, all of them slots in [0, n). */
  predicate RoundsFit(rounds: seq<seq<(int, int)>>, n: nat)
  {
    forall r :: 0 <= r < |rounds| ==> |rounds[r]| == 3 * n && ValidDraws(rounds[r], n)
  }

  /** The arrangement after one draw: the two slots are exchanged when they differ. */
  function Draw(s: seq<int>, d: (int, int)): (r: seq<int>)
    requires 0 <= d.0 < |s| && 0 <= d.1 < |s|
    ensures |r| == |s|
  {
    if d.0 != d.1 then SwapAt(s, d.0, d.1) else s
  }

  /** The arrangement after one shuffle pass: each draw is applied in turn. */
  function ApplyDraws(s: seq<int>, draws: seq<(int, int)>): (r: seq<int>)
    requires ValidDraws(draws, |s|)
    ensures |r| == |s|
    decreases |draws|
  {
    if |draws| == 0 then s
    else Draw(ApplyDraws(s, draws[..|draws| - 1]), draws[|draws| - 1])
  }

  /** Applying one more draw of a pass to the arrangement reached so far. */
  lemma {:induction false} ApplyDrawsStep(s: seq<int>, draws: seq<(int, int)>, i: int)
    requires ValidDraws(draws, |s|) && 0 <= i < |draws|
    ensures ValidDraws(draws[..i], |s|) && ValidDraws(draws[..i + 1], |s|)
    ensures ApplyDraws(s, draws[..i + 1]) == Draw(ApplyDraws(s, draws[..i]), draws[i])
  {
    assert draws[..i + 1][..i] == draws[..i];
  }

  /** A shuffle pass keeps the arrangement a permutation of [0, N). */
  lemma {:induction false} ShuffleKeepsPermutation(s: seq<int>, draws: seq<(int, int)>)
    requires IsPermutationOfRange(s) && ValidDraws(draws, |s|)
    ensures IsPermutationOfRange(ApplyDraws(s, draws))
    decreases |draws|
  {
    if |draws| > 0 {
      var previous := draws[..|draws| - 1];
      ShuffleKeepsPermutation(s, previous);
      var d := draws[|draws| - 1];
      if d.0 != d.1 {
        SwapKeepsPermutation(ApplyDraws(s, previous), d.0, d.1);
      }
    }
  }

  /** With at most one piece the only permutation is the solved one. */
  lemma SmallArrangementIsSolved(s: seq<int>)
    requires IsPermutationOfRange(s) && |s| <= 1
    ensures IsSolved(s)
  {
  }

  /** Draws that pick the same slot j twice change nothing, however many of them follow a pass. */
  lemma {:induction false} RepeatedSlotDrawsKeep(s: seq<int>, draws: seq<(int, int)>, j: int, k: nat)
    requires 0 <= j < |s| && ValidDraws(draws, |s|)
    ensures ValidDraws(draws + seq(k, _ => (j, j)), |s|)
    ensures ApplyDraws(s, draws + seq(k, _ => (j, j))) == ApplyDraws(s, draws)
    decreases k
  {
    var all := draws + seq(k, _ => (j, j));
    assert ValidDraws(all, |s|) by {
      forall m | 0 <= m < |all| ensures 0 <= all[m].0 < |s| && 0 <= all[m].1 < |s| {
        if m >= |draws| {
          assert all[m] == (j, j);
        }
      }
    }
    if k > 0 {
      RepeatedSlotDrawsKeep(s, draws, j, k - 1);
      assert all[..|all| - 1] == draws + seq(k - 1, _ => (j, j));
      assert all[|all| - 1] == (j, j);
    } else {
      assert all == draws;
    }
  }

  /**
   * With two or more pieces a full round of 3 * N draws can leave the grid unsolved: one
   * exchange of slots 0 and 1 followed by draws that pick the same slot twice.
   */
  lemma OneExchangeUnsolves(n: nat)
    requires n >= 2
    ensures exists draws :: |draws| == 3 * n && ValidDraws(draws, n) && !IsSolved(ApplyDraws(Identity(n), draws))
  {
    var first := [(0, 1)];
    var draws := first + seq(3 * n - 1, _ => (0, 0));
    var once := ApplyDraws(Identity(n), first);
    assert ApplyDraws(Identity(n), first[..0]) == Identity(n);
    assert once[0] == 1;
    RepeatedSlotDrawsKeep(Identity(n), first, 0, 3 * n - 1);
    assert !IsSolved(ApplyDraws(Identity(n), draws));
  }

  /**
   * The arrangement the shuffle ends with and the number of rounds of draws it consumed: a pass
   * with the first round and, while that leaves the grid solved, the same with the remaining
   * rounds; it stops at the last round whatever that gives.
   */
  function ShuffleOutcome(start: seq<int>, rounds: seq<seq<(int, int)>>): (r: (seq<int>, nat))
    requires |rounds| >= 1 && RoundsFit(rounds, |start|)
    ensures |r.0| == |start| && 1 <= r.1 <= |rounds|
    decreases |rounds|
  {
    var shuffled := ApplyDraws(start, rounds[0]);
    if !IsSolved(shuffled) || |rounds| == 1 then (shuffled, 1)
    else
      var rest := ShuffleOutcome(shuffled, rounds[1..]);
      (rest.0, rest.1 + 1)
  }

  /**
   * The shuffle keeps the arrangement a permutation, stops early only on an unsolved
   * arrangement, and ends with the pass of the last round it used, run from the starting
   * arrangement for the first round and from the solved one after that.
   */
  lemma {:induction false} ShuffleOutcomeFacts(start: seq<int>, rounds: seq<seq<(int, int)>>)
    requires |rounds| >= 1 && RoundsFit(rounds, |start|) && IsPermutationOfRange(start)
    ensures var (a, k) := ShuffleOutcome(start, rounds);
      IsPermutationOfRange(a) &&
      (k < |rounds| ==> !IsSolved(a)) &&
      a == ApplyDraws(if k == 1 then start else Identity(|start|), rounds[k - 1])
    decreases |rounds|
  {
    var shuffled := ApplyDraws(start, rounds[0]);
    ShuffleKeepsPermutation(start, rounds[0]);
    if IsSolved(shuffled) && |rounds| > 1 {
      SolvedIsIdentity(shuffled);
      ShuffleOutcomeFacts(shuffled, rounds[1..]);
      var k := ShuffleOutcome(shuffled, rounds[1..]).1;
      assert rounds[1..][k - 1] == rounds[k];
    }
  }

  /** The shuffle's first round: it stops there on an unsolved grid or when no round is left, else it goes on. */
  lemma ShuffleOutcomeFirstRound(start: seq<int>, rounds: seq<seq<(int, int)>>)
    requires |rounds| >= 1 && RoundsFit(rounds, |start|)
    ensures var shuffled := ApplyDraws(start, rounds[0]);
      (!IsSolved(shuffled) || |rounds| == 1 ==> ShuffleOutcome(start, rounds) == (shuffled, 1)) &&
      (IsSolved(shuffled) && |rounds| > 1 ==>
        RoundsFit(rounds[1..], |shuffled|) &&
        ShuffleOutcome(start, rounds) ==
          (ShuffleOutcome(shuffled, rounds[1..]).0, ShuffleOutcome(shuffled, rounds[1..]).1 + 1))
  {
  }

  /** With at most one piece the shuffle always ends solved: it uses every round and never settles. */
  lemma SmallGridNeverSettles(start: seq<int>, rounds: seq<seq<(int, int)>>)
    requires |rounds| >= 1 && RoundsFit(rounds, |start|) && IsPermutationOfRange(start) && |start| <= 1
    ensures IsSolved(ShuffleOutcome(start, rounds).0) && ShuffleOutcome(start, rounds).1 == |rounds|
  {
    ShuffleOutcomeFacts(start, rounds);
    SmallArrangementIsSolved(ShuffleOutcome(start, rounds).0);
  }

  /** Exchanging the contents of two slots of a list keeps the same elements in it. */
  lemma ExchangeKeepsElements<T>(s: seq<T>, i: int, j: int)
    requires 0 <= i < |s| && 0 <= j < |s|
    ensures forall x :: x in s[i := s[j]][j := s[i]] <==> x in s
  {
    var r := s[i := s[j]][j := s[i]];
    forall x ensures x in r <==> x in s {
      if x in s {
        var k :| 0 <= k < |s| && s[k] == x;
        var k' := if k == i then j else if k == j then i else k;
        assert r[k'] == x;
      }
    }
  }

  /** The selection state machine; a swap runs to completion before the next click is handled. */
  datatype Phase = Idle | OneSelected | Swapping | Complete

  /**
   * The slot of the first occurrence of the piece, or -1 when it is not in the list, as the
   * runtime's list search reports it; the level catalogue's FirstIndexOf locates an occurrence
   * for removal instead and so reports the list's length for a missing level.
   */
  function IndexOf(ps: seq<PuzzlePiece>, p: PuzzlePiece): (k: int)
    ensures -1 <= k < |ps|
    ensures k == -1 <==> p !in ps
    ensures 0 <= k ==> ps[k] == p && p !in ps[..k]
    decreases |ps|
  {
    if |ps| == 0 then -1
    else if ps[0] == p then 0
    else
      var k := IndexOf(ps[1..], p);
      if k == -1 then -1
      else
        assert ps[..k + 1] == [ps[0]] + ps[1..][..k];
        k + 1
  }

  class PuzzleManager {
    var grid: PuzzleGrid
    /** The game-wide state, reached through a singleton in the engine. */
    var game: GameManager
    var currentLevel: LevelData?
    var selectedPiece: PuzzlePiece?
    var isSwapping: bool
    var isPuzzleComplete: bool
    /** Seconds since the game started; advanced by the frame loop, which is not modelled. */
    var gameTime: real
    var isTimerRunning: bool

    constructor (grid: PuzzleGrid, game: GameManager)
      requires grid.Consistent()
      ensures Valid()
      ensures this.grid == grid && this.game == game
      ensures currentLevel == null && selectedPiece == null
      ensures !isSwapping && !isPuzzleComplete && !isTimerRunning && gameTime == 0.0
    {
      this.grid := grid;
      this.game := game;
      currentLevel := null;
      selectedPiece := null;
      isSwapping, isPuzzleComplete, isTimerRunning := false, false, false;
      gameTime := 0.0;
    }

    /** The grid is consistent and a selected piece is one of its pieces. */
    ghost predicate Valid()
      reads this`grid, this`selectedPiece, grid, grid.pieces`currentIndex, grid.pieces`correctIndex
    {
      grid.Consistent() && (selectedPiece == null || selectedPiece in grid.pieces)
    }

    /** Where the selection state machine stands. */
    function Phase(): (p: Phase)
      reads this
      ensures p == Complete <==> isPuzzleComplete
      ensures p == Swapping <==> !isPuzzleComplete && isSwapping
      ensures p == Idle <==> !isPuzzleComplete && !isSwapping && selectedPiece == null
      ensures p == OneSelected <==> !isPuzzleComplete && !isSwapping && selectedPiece != null
    {
      if isPuzzleComplete then Complete
      else if isSwapping then Swapping
      else if selectedPiece == null then Idle
      else OneSelected
    }

    /**
     * Takes the level chosen in the game manager and, when it exists and its photo has a
     * sprite, builds the grid for it from that sprite; otherwise the grid is left as it was.
     */
    method LoadLevel(prefab: Prefab) returns (loaded: bool)
      requires game.currentLevel != null ==> game.currentLevel.HasValidSize()
      modifies this`currentLevel, grid
      ensures currentLevel == game.currentLevel
      ensures loaded <==> currentLevel != null && game.GetPhotoSprite(currentLevel.photoID).Some?
      ensures !loaded ==> grid.pieces == old(grid.pieces)
      ensures loaded ==>
        (forall i :: 0 <= i < |grid.pieces| ==> fresh(grid.pieces[i])) &&
        |grid.pieces| == (if prefab.hasPiece && currentLevel.gridWidth > 0 && currentLevel.gridHeight > 0
                          then currentLevel.gridWidth * currentLevel.gridHeight else 0) &&
        grid.Consistent() && IsSolved(grid.Arrangement()) &&
        forall i :: 0 <= i < |grid.pieces| ==>
          grid.pieces[i].image ==
            CellImage(game.GetPhotoSprite(currentLevel.photoID).value, prefab,
                      currentLevel.gridWidth, currentLevel.gridHeight, i)
    {
      currentLevel := game.currentLevel;
      if currentLevel == null {
        return false;
      }
      var photoSprite := game.GetPhotoSprite(currentLevel.photoID);
      if photoSprite.None? {
        return false;
      }
      grid.CreateGrid(currentLevel.gridWidth, currentLevel.gridHeight, photoSprite.value, prefab);
      return true;
    }

    /** Whether every piece is in its correct slot. */
    function CheckWinCondition(): (won: bool)
      reads this`grid, grid, grid.pieces`currentIndex, grid.pieces`correctIndex
      ensures won <==> forall i :: 0 <= i < |grid.pieces| ==> grid.pieces[i].IsInCorrectPosition()
      ensures grid.Consistent() ==> (won <==> IsSolved(grid.Arrangement()))
    {
      forall i :: 0 <= i < |grid.pieces| ==> grid.pieces[i].IsInCorrectPosition()
    }

    /**
     * Exchanges the current indices of two pieces of the grid and their slots in the list; no
     * other slot and no correct index changes, and the grid stays consistent.
     */
    method SwapPiecesImmediate(piece1: PuzzlePiece, piece2: PuzzlePiece)
      requires grid.Consistent() && piece1 in grid.pieces && piece2 in grid.pieces
      modifies grid`pieces, piece1`currentIndex, piece2`currentIndex
      ensures var i1, i2 := old(piece1.currentIndex), old(piece2.currentIndex);
        0 <= i1 < |old(grid.pieces)| && 0 <= i2 < |old(grid.pieces)| &&
        grid.pieces == old(grid.pieces)[i1 := piece2][i2 := piece1] &&
        grid.Arrangement() == SwapAt(old(grid.Arrangement()), i1, i2)
      ensures grid.Consistent()
    {
      ghost var before := grid.Arrangement();
      ghost var i1, i2 := piece1.currentIndex, piece2.currentIndex;
      assert grid.pieces[i1] == piece1 && grid.pieces[i2] == piece2;
      var temp := piece1.currentIndex;
      piece1.SetCurrentIndex(piece2.currentIndex);
      piece2.SetCurrentIndex(temp);

      var pieces := grid.pieces;
      var index1 := IndexOf(pieces, piece1);
      var index2 := IndexOf(pieces, piece2);
      assert index1 == i1 && index2 == i2;
      pieces := pieces[index1 := piece2];
      pieces := pieces[index2 := piece1];
      grid.pieces := pieces;

      assert grid.Arrangement() == SwapAt(before, i1, i2) by {
        forall k | 0 <= k < |pieces| ensures pieces[k].correctIndex == SwapAt(before, i1, i2)[k] {
        }
      }
      ExchangeKeepsElements(old(grid.pieces), i1, i2);
      forall k | 0 <= k < |pieces| ensures pieces[k].currentIndex == k {
        if k != i1 && k != i2 {
          assert pieces[k] == old(grid.pieces[k]) && old(grid.pieces[k].currentIndex) == k;
        }
      }
      SwapKeepsPermutation(before, i1, i2);
    }

    /**
     * One shuffle pass: 3 * N draws of two slots, exchanging the pieces in them whenever the
     * two slots differ.
     */
    method ShufflePass(draws: seq<(int, int)>)
      requires Valid() && |draws| == 3 * |grid.pieces| && ValidDraws(draws, |grid.pieces|)
      modifies grid`pieces, grid.PieceSet()`currentIndex
      ensures Valid() && |grid.pieces| == old(|grid.pieces|)
      ensures grid.PieceSet() == old(grid.PieceSet())
      ensures grid.Arrangement() == ApplyDraws(old(grid.Arrangement()), draws)
    {
      ghost var start, pieces := grid.Arrangement(), grid.PieceSet();
      var shuffleCount := |grid.pieces| * 3;
      var i := 0;
      while i < shuffleCount
        invariant 0 <= i <= shuffleCount && |grid.pieces| == |start|
        invariant Valid()
        invariant grid.PieceSet() == pieces
        invariant grid.Arrangement() == ApplyDraws(start, draws[..i])
      {
        ApplyDrawsStep(start, draws, i);
        ShuffleStep(draws[i].0, draws[i].1);
        i := i + 1;
      }
      assert draws[..i] == draws;
    }

    /** One draw of a shuffle pass: the pieces in the two slots are exchanged when the slots differ. */
    method ShuffleStep(index1: int, index2: int)
      requires Valid() && 0 <= index1 < |grid.pieces| && 0 <= index2 < |grid.pieces|
      modifies grid`pieces, grid.PieceSet()`currentIndex
      ensures Valid() && |grid.pieces| == old(|grid.pieces|)
      ensures grid.PieceSet() == old(grid.PieceSet())
      ensures grid.Arrangement() == Draw(old(grid.Arrangement()), (index1, index2))
    {
      if index1 != index2 {
        ExchangeKeepsElements(grid.pieces, index1, index2);
        SwapPiecesImmediate(grid.pieces[index1], grid.pieces[index2]);
      }
    }

    /**
     * Shuffles until the grid is not solved, as ShuffleOutcome describes. `settled` tells whether
     * the grid ended unsolved; when it is false the draws ran out while the game would still be
     * re-shuffling.
     */
    method ShufflePuzzle(rounds: seq<seq<(int, int)>>) returns (settled: bool, roundsUsed: nat)
      requires Valid() && |rounds| >= 1 && RoundsFit(rounds, |grid.pieces|)
      modifies grid`pieces, grid.PieceSet()`currentIndex
      ensures Valid() && |grid.pieces| == old(|grid.pieces|)
      ensures grid.PieceSet() == old(grid.PieceSet())
      ensures settled <==> !CheckWinCondition()
      ensures (grid.Arrangement(), roundsUsed) == ShuffleOutcome(old(grid.Arrangement()), rounds)
      decreases |rounds|, 1
    {
      ghost var start := grid.Arrangement();
      ShufflePass(rounds[0]);
      settled, roundsUsed := RetryShuffleIfSolved(start, rounds);
    }

    /**
     * The end of a shuffle pass: when the pass left the grid solved and rounds of draws remain,
     * shuffles again with the remaining rounds.
     */
    method RetryShuffleIfSolved(ghost start: seq<int>, rounds: seq<seq<(int, int)>>)
      returns (settled: bool, roundsUsed: nat)
      requires Valid() && |rounds| >= 1 && |start| == |grid.pieces| && RoundsFit(rounds, |start|)
      requires grid.Arrangement() == ApplyDraws(start, rounds[0])
      modifies grid`pieces, grid.PieceSet()`currentIndex
      ensures Valid() && |grid.pieces| == old(|grid.pieces|)
      ensures grid.PieceSet() == old(grid.PieceSet())
      ensures settled <==> !CheckWinCondition()
      ensures (grid.Arrangement(), roundsUsed) == ShuffleOutcome(start, rounds)
      decreases |rounds|, 0
    {
      ShuffleOutcomeFirstRound(start, rounds);
      var won := CheckWinCondition();
      if !won || |rounds| == 1 {
        return !won, 1;
      }
      ghost var shuffled := grid.Arrangement();
      var used;
      settled, used := ShufflePuzzle(rounds[1..]);
      assert (grid.Arrangement(), used) == ShuffleOutcome(shuffled, rounds[1..]);
      roundsUsed := used + 1;
    }

    /**
     * Starts play: shuffles, then zeroes the clock, starts the timer and clears the completion
     * flag. When the shuffle does not settle the game never gets past it, and nothing else changes.
     */
    method StartGame(rounds: seq<seq<(int, int)>>) returns (started: bool)
      requires Valid() && |rounds| >= 1 && RoundsFit(rounds, |grid.pieces|)
      modifies this`gameTime, this`isTimerRunning, this`isPuzzleComplete
      modifies grid`pieces, grid.PieceSet()`currentIndex
      ensures Valid() && |grid.pieces| == old(|grid.pieces|)
      ensures grid.PieceSet() == old(grid.PieceSet())
      ensures var (shuffled, _) := ShuffleOutcome(old(grid.Arrangement()), rounds);
        grid.Arrangement() == shuffled && (started <==> !IsSolved(shuffled))
      ensures started <==> !CheckWinCondition()
      ensures started ==> gameTime == 0.0 && isTimerRunning && !isPuzzleComplete && Phase() != Complete
      ensures !started ==>
        gameTime == old(gameTime) && isTimerRunning == old(isTimerRunning) && isPuzzleComplete == old(isPuzzleComplete)
    {
      var roundsUsed;
      started, roundsUsed := ShufflePuzzle(rounds);
      if !started {
        return;
      }
      RestartClock();
    }

    /** Zeroes the clock, starts the timer and clears the completion flag. */
    method RestartClock()
      modifies this`gameTime, this`isTimerRunning, this`isPuzzleComplete
      ensures gameTime == 0.0 && isTimerRunning && !isPuzzleComplete
    {
      gameTime := 0.0;
      isTimerRunning := true;
      isPuzzleComplete := false;
    }

    /**
     * Marks the puzzle complete, stops the timer and records the time as the level's best if it
     * is a new record; gives back the best time afterwards and whether it was a new record.
     */
    method OnPuzzleComplete() returns (bestTime: real, isNewRecord: bool)
      requires currentLevel != null
      modifies this`isPuzzleComplete, this`isTimerRunning, game`prefs
      ensures isPuzzleComplete && !isTimerRunning
      ensures unchanged(grid, grid.pieces)
      ensures grid.Consistent() == old(grid.Consistent()) && grid.Arrangement() == old(grid.Arrangement())
      ensures (game.prefs, isNewRecord) == SaveBest(old(game.prefs), currentLevel.levelID, gameTime)
      ensures bestTime == BestTime(game.prefs, currentLevel.levelID) && bestTime <= gameTime
    {
      isPuzzleComplete := true;
      isTimerRunning := false;
      isNewRecord := game.SaveBestTime(currentLevel.levelID, gameTime);
      bestTime := game.GetBestTime(currentLevel.levelID);
      SaveBestNeverWorsens(old(game.prefs), currentLevel.levelID, gameTime);
    }

    /**
     * Swaps two pieces (the animation is left out), clears the selection and the swapping flag,
     * and completes the puzzle when the swap solved it.
     */
    method SwapPieces(piece1: PuzzlePiece, piece2: PuzzlePiece)
      requires Valid() && currentLevel != null && piece1 in grid.pieces && piece2 in grid.pieces
      modifies this`selectedPiece, this`isSwapping, this`isPuzzleComplete, this`isTimerRunning
      modifies grid`pieces, piece1`currentIndex, piece2`currentIndex, game`prefs
      ensures Valid()
      ensures var i1, i2 := old(piece1.currentIndex), old(piece2.currentIndex);
        0 <= i1 < |old(grid.pieces)| && 0 <= i2 < |old(grid.pieces)| &&
        grid.pieces == old(grid.pieces)[i1 := piece2][i2 := piece1] &&
        grid.Arrangement() == SwapAt(old(grid.Arrangement()), i1, i2)
      ensures selectedPiece == null && !isSwapping
      ensures CheckWinCondition() ==>
        isPuzzleComplete && !isTimerRunning &&
        game.prefs == SaveBest(old(game.prefs), currentLevel.levelID, gameTime).0
      ensures !CheckWinCondition() ==>
        isPuzzleComplete == old(isPuzzleComplete) && isTimerRunning == old(isTimerRunning) &&
        game.prefs == old(game.prefs)
    {
      SwapPiecesImmediate(piece1, piece2);
      FinishSwap();
    }

    /**
     * What follows the swap animation: clears the selection and the swapping flag and completes
     * the puzzle when the swap solved it; the pieces stay as they are.
     */
    method FinishSwap()
      requires currentLevel != null
      modifies this`selectedPiece, this`isSwapping, this`isPuzzleComplete, this`isTimerRunning, game`prefs
      ensures selectedPiece == null && !isSwapping
      ensures unchanged(grid, grid.pieces)
      ensures grid.Consistent() == old(grid.Consistent()) && grid.Arrangement() == old(grid.Arrangement())
      ensures CheckWinCondition() ==>
        isPuzzleComplete && !isTimerRunning &&
        game.prefs == SaveBest(old(game.prefs), currentLevel.levelID, gameTime).0
      ensures !CheckWinCondition() ==>
        isPuzzleComplete == old(isPuzzleComplete) && isTimerRunning == old(isTimerRunning) &&
        game.prefs == old(game.prefs)
    {
      EndSwap();
      CompleteIfSolved();
    }

    /** Completes the puzzle when every piece is in its correct slot, and does nothing otherwise. */
    method CompleteIfSolved()
      requires currentLevel != null
      modifies this`isPuzzleComplete, this`isTimerRunning, game`prefs
      ensures unchanged(grid, grid.pieces)
      ensures grid.Consistent() == old(grid.Consistent()) && grid.Arrangement() == old(grid.Arrangement())
      ensures CheckWinCondition() ==>
        isPuzzleComplete && !isTimerRunning &&
        game.prefs == SaveBest(old(game.prefs), currentLevel.levelID, gameTime).0
      ensures !CheckWinCondition() ==>
        isPuzzleComplete == old(isPuzzleComplete) && isTimerRunning == old(isTimerRunning) &&
        game.prefs == old(game.prefs)
    {
      if CheckWinCondition() {
        var bestTime, isNewRecord := OnPuzzleComplete();
      }
    }

    /** Clears the selection and lets clicks through again once a swap is done. */
    method EndSwap()
      modifies this`selectedPiece, this`isSwapping
      ensures selectedPiece == null && !isSwapping
      ensures unchanged(grid, grid.pieces)
      ensures grid.Consistent() == old(grid.Consistent()) && grid.Arrangement() == old(grid.Arrangement())
    {
      selectedPiece := null;
      isSwapping := false;
    }

    /**
     * A click on a piece. Ignored while a swap runs or after completion; otherwise it selects
     * the piece, deselects it when it is the selected one, or swaps it with the selected one.
     */
    method OnPieceClicked(piece: PuzzlePiece)
      requires Valid() && currentLevel != null && piece in grid.pieces
      modifies this`selectedPiece, this`isSwapping, this`isPuzzleComplete, this`isTimerRunning
      modifies grid`pieces, grid.PieceSet()`currentIndex, game`prefs
      ensures Valid()
      ensures old(Phase()) != OneSelected || piece == old(selectedPiece) ==>
        grid.pieces == old(grid.pieces) && grid.Arrangement() == old(grid.Arrangement()) &&
        game.prefs == old(game.prefs) && isSwapping == old(isSwapping) &&
        isPuzzleComplete == old(isPuzzleComplete) && isTimerRunning == old(isTimerRunning)
      ensures old(Phase()) == Swapping || old(Phase()) == Complete ==> selectedPiece == old(selectedPiece)
      ensures old(Phase()) == Idle ==> selectedPiece == piece && Phase() == OneSelected
      ensures old(Phase()) == OneSelected && piece == old(selectedPiece) ==> selectedPiece == null && Phase() == Idle
      ensures old(Phase()) == OneSelected && piece != old(selectedPiece) ==>
        var i1, i2 := old(selectedPiece.currentIndex), old(piece.currentIndex);
        0 <= i1 < |old(grid.pieces)| && 0 <= i2 < |old(grid.pieces)| && i1 != i2 &&
        grid.pieces == old(grid.pieces)[i1 := piece][i2 := old(selectedPiece)] &&
        grid.Arrangement() == SwapAt(old(grid.Arrangement()), i1, i2) &&
        selectedPiece == null && !isSwapping &&
        (CheckWinCondition() ==>
          Phase() == Complete && !isTimerRunning &&
          game.prefs == SaveBest(old(game.prefs), currentLevel.levelID, gameTime).0) &&
        (!CheckWinCondition() ==>
          Phase() == Idle && isTimerRunning == old(isTimerRunning) && game.prefs == old(game.prefs))
    {
      if isSwapping || isPuzzleComplete {
        return;
      }
      if selectedPiece == null {
        selectedPiece := piece;
      } else if selectedPiece == piece {
        selectedPiece := null;
      } else {
        SwapPieces(selectedPiece, piece);
      }
    }

    /**
     * After a completed level: plays the level whose ID is one higher when the catalogue has
     * it, otherwise returns to the level map.
     */
    method LoadNextLevel() returns (scene: Scene)
      requires currentLevel != null
      modifies game`selectedLevelID, game`currentLevel
      ensures var next := game.levelDatabase.GetLevelByID(currentLevel.levelID + 1);
        (scene == PuzzleGame <==> next != null) &&
        (next != null ==> game.selectedLevelID == currentLevel.levelID + 1 && game.currentLevel == next) &&
        (next == null ==> game.selectedLevelID == old(game.selectedLevelID) && game.currentLevel == old(game.currentLevel))
    {
      var nextLevelID := currentLevel.levelID + 1;
      var nextLevel := game.levelDatabase.GetLevelByID(nextLevelID);
      if nextLevel != null {
        game.SetCurrentLevel(nextLevelID);
        scene := PuzzleGame;
      } else {
        scene := LevelMap;
      }
    }
  }
}
