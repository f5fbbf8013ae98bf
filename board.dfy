/** The 15x15 gomoku board and the five-in-a-row test run after every move
    (check_winner). Cells hold 0 (empty), 1 (black) or 2 (white). */
module Board {

  const Size := 15
  const Empty := 0
  const BlackStone := 1
  const WhiteStone := 2

  /** The four axes the scan looks along: horizontal, vertical and the two diagonals. */
  const Directions: seq<(int, int)> := [(0, 1), (1, 0), (1, 1), (1, -1)]

  predicate OnBoard(r: int, c: int)
  {
    0 <= r < Size && 0 <= c < Size
  }

  predicate IsBoard(b: array2<int>)
  {
    b.Length0 == Size && b.Length1 == Size
  }

  /** The cell `i` steps from (r, c) along (dr, dc) is on the board and holds `stone`.
      A negative `i` steps the other way. */
  predicate At(b: array2<int>, stone: int, r: int, c: int, dr: int, dc: int, i: int)
    requires IsBoard(b)
    reads b
  {
    OnBoard(r + dr * i, c + dc * i) && b[r + dr * i, c + dc * i] == stone
  }

  /** How many cells, from step `i` on and stopping after step 4, match `stone`
      before the first cell that is off the board or does not match. */
  function RunFrom(b: array2<int>, stone: int, r: int, c: int, dr: int, dc: int, i: nat): nat
    requires IsBoard(b)
    reads b
    decreases 5 - i
  {
    if i > 4 || !At(b, stone, r, c, dr, dc, i) then 0
    else 1 + RunFrom(b, stone, r, c, dr, dc, i + 1)
  }

  /** The placed stone plus the run forward and the run backward along one axis. */
  function LineCount(b: array2<int>, stone: int, r: int, c: int, d: (int, int)): nat
    requires IsBoard(b)
    reads b
  {
    1 + RunFrom(b, stone, r, c, d.0, d.1, 1) + RunFrom(b, stone, r, c, -d.0, -d.1, 1)
  }

  /** The decision check_winner makes. */
  predicate Wins(b: array2<int>, stone: int, r: int, c: int)
    requires IsBoard(b)
    reads b
  {
    exists d :: d in Directions && LineCount(b, stone, r, c, d) >= 5
  }

  /** The five cells at steps s .. s+4 along (dr, dc) all hold `stone`. */
  predicate Window(b: array2<int>, stone: int, r: int, c: int, dr: int, dc: int, s: int)
    requires IsBoard(b)
    reads b
  {
    forall k :: s <= k < s + 5 ==> At(b, stone, r, c, dr, dc, k)
  }

  /** Five stones in an unbroken line along (dr, dc) that pass through (r, c). */
  predicate FiveThrough(b: array2<int>, stone: int, r: int, c: int, dr: int, dc: int)
    requires IsBoard(b)
    reads b
  {
    exists s :: -4 <= s <= 0 && Window(b, stone, r, c, dr, dc, s)
  }

  /** check_winner: for each axis, count forward then backward, each scan stopping
      at the board's edge, at the first cell that is not `stone`, or after 4 steps. */
  method CheckWinner(b: array2<int>, stone: int, r: int, c: int) returns (won: bool)
    requires IsBoard(b)
    ensures won == Wins(b, stone, r, c)
  {
    var k := 0;
    while k < |Directions|
      invariant 0 <= k <= |Directions|
      invariant forall j :: 0 <= j < k ==> LineCount(b, stone, r, c, Directions[j]) < 5
    {
      var (dr, dc) := Directions[k];
      var count := 1;
      var i := 1;
      while i < 5
        invariant 1 <= i <= 5
        invariant count + RunFrom(b, stone, r, c, dr, dc, i) == 1 + RunFrom(b, stone, r, c, dr, dc, 1)
      {
        var nr, nc := r + dr * i, c + dc * i;
        if 0 <= nr < Size && 0 <= nc < Size && b[nr, nc] == stone {
          count := count + 1;
        } else {
          break;
        }
        i := i + 1;
      }
      i := 1;
      ghost var forward := count;
      while i < 5
        invariant 1 <= i <= 5
        invariant count + RunFrom(b, stone, r, c, -dr, -dc, i) == forward + RunFrom(b, stone, r, c, -dr, -dc, 1)
      {
        var nr, nc := r - dr * i, c - dc * i;
        if 0 <= nr < Size && 0 <= nc < Size && b[nr, nc] == stone {
          count := count + 1;
        } else {
          break;
        }
        i := i + 1;
      }
      if count >= 5 {
        assert Directions[k] in Directions;
        return true;
      }
      k := k + 1;
    }
    assert forall d :: d in Directions ==> exists j :: 0 <= j < |Directions| && Directions[j] == d;
    return false;
  }

  /** A run from step i covers matching cells only, and never goes past step 4. */
  lemma {:induction false} RunCells(b: array2<int>, stone: int, r: int, c: int, dr: int, dc: int, i: nat)
    requires IsBoard(b) && 1 <= i
    ensures i + RunFrom(b, stone, r, c, dr, dc, i) <= 5 || RunFrom(b, stone, r, c, dr, dc, i) == 0
    ensures forall k :: i <= k < i + RunFrom(b, stone, r, c, dr, dc, i) ==> At(b, stone, r, c, dr, dc, k)
    ensures i + RunFrom(b, stone, r, c, dr, dc, i) <= 4 ==> !At(b, stone, r, c, dr, dc, i + RunFrom(b, stone, r, c, dr, dc, i))
    decreases 5 - i
  {
    if i <= 4 && At(b, stone, r, c, dr, dc, i) {
      RunCells(b, stone, r, c, dr, dc, i + 1);
    }
  }

  /** A run from step i reaches every step up to m when those cells all match. */
  lemma {:induction false} RunReaches(b: array2<int>, stone: int, r: int, c: int, dr: int, dc: int, i: nat, m: int)
    requires IsBoard(b) && 1 <= i && m <= 4
    requires forall k :: i <= k <= m ==> At(b, stone, r, c, dr, dc, k)
    ensures RunFrom(b, stone, r, c, dr, dc, i) >= m - i + 1
    decreases 5 - i
  {
    if i <= m {
      RunReaches(b, stone, r, c, dr, dc, i + 1, m);
    }
  }

  /** Stepping backwards is stepping forwards by a negative count. */
  lemma Backwards(b: array2<int>, stone: int, r: int, c: int, dr: int, dc: int, i: int)
    requires IsBoard(b)
    ensures At(b, stone, r, c, -dr, -dc, i) == At(b, stone, r, c, dr, dc, -i)
  {
  }

  /** The scan along one axis counts at least five exactly when five stones
      lie in an unbroken line through the placed stone on that axis. */
  lemma LineCountMeansFive(b: array2<int>, stone: int, r: int, c: int, dr: int, dc: int)
    requires IsBoard(b) && OnBoard(r, c) && b[r, c] == stone
    ensures LineCount(b, stone, r, c, (dr, dc)) >= 5 <==> FiveThrough(b, stone, r, c, dr, dc)
  {
    var f := RunFrom(b, stone, r, c, dr, dc, 1);
    var g := RunFrom(b, stone, r, c, -dr, -dc, 1);
    RunCells(b, stone, r, c, dr, dc, 1);
    RunCells(b, stone, r, c, -dr, -dc, 1);
    assert At(b, stone, r, c, dr, dc, 0);
    if f + g >= 4 {
      var s := -(g as int);
      forall k | s <= k < s + 5
        ensures At(b, stone, r, c, dr, dc, k)
      {
        if k < 0 {
          Backwards(b, stone, r, c, dr, dc, -k);
        }
      }
      assert Window(b, stone, r, c, dr, dc, s);
    }
    if FiveThrough(b, stone, r, c, dr, dc) {
      var s :| -4 <= s <= 0 && Window(b, stone, r, c, dr, dc, s);
      RunReaches(b, stone, r, c, dr, dc, 1, s + 4);
      var br, bc := -dr, -dc;
      forall k | 1 <= k <= -s
        ensures At(b, stone, r, c, br, bc, k)
      {
        Backwards(b, stone, r, c, dr, dc, k);
      }
      RunReaches(b, stone, r, c, br, bc, 1, -s);
    }
  }

  /** check_winner's decision, stated without the scan: the placed stone is part
      of five same-coloured stones in a row on one of the four axes. */
  lemma WinsMeansFiveInARow(b: array2<int>, stone: int, r: int, c: int)
    requires IsBoard(b) && OnBoard(r, c) && b[r, c] == stone
    ensures Wins(b, stone, r, c) <==> exists d :: d in Directions && FiveThrough(b, stone, r, c, d.0, d.1)
  {
    forall d | d in Directions
      ensures LineCount(b, stone, r, c, d) >= 5 <==> FiveThrough(b, stone, r, c, d.0, d.1)
    {
      LineCountMeansFive(b, stone, r, c, d.0, d.1);
    }
  }

  /** Five same-coloured stones ending at the placed one on its row are a win,
      whatever the rest of the board holds. */
  lemma RowOfFiveWins(b: array2<int>, stone: int, r: int, c: int)
    requires IsBoard(b) && OnBoard(r, c - 4) && OnBoard(r, c)
    requires forall j :: c - 4 <= j <= c ==> b[r, j] == stone
    ensures Wins(b, stone, r, c)
  {
    forall k | -4 <= k < 1
      ensures At(b, stone, r, c, 0, 1, k)
    {
      assert b[r + 0 * k, c + 1 * k] == stone;
    }
    assert Window(b, stone, r, c, 0, 1, -4);
    WinsMeansFiveInARow(b, stone, r, c);
    assert (0, 1) in Directions;
  }

  /** Each axis count is at least 1 (the placed stone) and at most 9. */
  lemma {:induction false} LineCountBounded(b: array2<int>, stone: int, r: int, c: int, d: (int, int))
    requires IsBoard(b)
    ensures 1 <= LineCount(b, stone, r, c, d) <= 9
  {
    RunCells(b, stone, r, c, d.0, d.1, 1);
    RunCells(b, stone, r, c, -d.0, -d.1, 1);
  }
}
