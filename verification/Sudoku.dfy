/** The backtracking solver of `sudoku_solver.c`. */
module Sudoku {

  type Board = b: seq<int> | |b| == 81 witness Blank(81)

  function Blank(n: nat): (b: seq<int>)
    ensures |b| == n
  {
    if n == 0 then [] else Blank(n - 1) + [0]
  }

  /** Cells i and j share a row, a column or a box. */
  predicate Peer(i: nat, j: nat)
  {
    i != j && (i / 9 == j / 9 || i % 9 == j % 9 || (i / 27 == j / 27 && i % 9 / 3 == j % 9 / 3))
  }

  /** No two peers hold the same digit. */
  ghost predicate ConflictFree(b: Board)
  {
    forall i: nat, j: nat | i < 81 && j < 81 && Peer(i, j) && b[i] != 0 :: b[i] != b[j]
  }

  /** s keeps the given cells of b and fills the others with digits, none of which repeats a peer. */
  ghost predicate Completes(s: Board, b: Board)
  {
    (forall i | 0 <= i < 81 && b[i] != 0 :: s[i] == b[i]) &&
    (forall i | 0 <= i < 81 && b[i] == 0 :: 1 <= s[i] <= 9) &&
    (forall i: nat, j: nat | i < 81 && j < 81 && b[i] == 0 && Peer(i, j) :: s[i] != s[j])
  }

  /** A finished grid: every cell a digit, no two peers equal. */
  ghost predicate Solved(s: Board)
  {
    (forall i | 0 <= i < 81 :: 1 <= s[i] <= 9) && ConflictFree(s)
  }

  /** On a conflict-free board of digits, completing it and solving it are the same. */
  lemma CompletesIffSolves(s: Board, b: Board)
    requires ConflictFree(b) && forall i | 0 <= i < 81 :: 0 <= b[i] <= 9
    ensures Completes(s, b) <==> Solved(s) && forall i | 0 <= i < 81 && b[i] != 0 :: s[i] == b[i]
  {
    if Completes(s, b) {
      forall i: nat, j: nat | i < 81 && j < 81 && Peer(i, j) && s[i] != 0 ensures s[i] != s[j] {
        assert Peer(j, i);
      }
    }
  }

  /** num may go into cell i: no peer holds it. */
  ghost predicate Allowed(b: Board, i: nat, num: int)
  {
    forall j: nat | j < 81 && Peer(i, j) :: b[j] != num
  }

  /** Choosing a digit for an empty cell: the completions of b are those of its allowed successors. */
  lemma Branch(s: Board, b: Board, i: nat, num: int)
    requires i < 81 && b[i] == 0 && num != 0
    ensures Completes(s, b) && s[i] == num ==> Allowed(b, i, num) && Completes(s, b[i := num])
    ensures Allowed(b, i, num) && 1 <= num <= 9 && Completes(s, b[i := num]) ==> Completes(s, b)
  {
    if Allowed(b, i, num) && 1 <= num <= 9 && Completes(s, b[i := num]) {
      forall a: nat, j: nat | a < 81 && j < 81 && b[a] == 0 && Peer(a, j) ensures s[a] != s[j] {
        if a == i && b[j] == 0 {
          assert Peer(j, a);
        }
      }
    }
  }

  function EmptyCells(b: seq<int>): nat
  {
    if b == [] then 0 else EmptyCells(b[..|b| - 1]) + if b[|b| - 1] == 0 then 1 else 0
  }

  lemma {:induction false} FillReduces(b: seq<int>, i: nat, num: int)
    requires i < |b| && b[i] == 0 && num != 0
    ensures EmptyCells(b[i := num]) < EmptyCells(b)
    decreases |b|
  {
    var n := |b| - 1;
    if i == n {
      assert b[i := num][..n] == b[..n];
    } else {
      assert b[i := num][..n] == b[..n][i := num];
      FillReduces(b[..n], i, num);
    }
  }

  /** The first loop of `can_place`: the row and the column. */
  method LinesFree(board: array<int>, row: nat, col: nat, num: int) returns (ok: bool)
    requires board.Length == 81 && row < 9 && col < 9
    ensures ok <==> forall j: nat | j < 81 && (j / 9 == row || j % 9 == col) :: board[j] != num
  {
    for x := 0 to 9
      invariant forall j: nat | j < 81 && ((j / 9 == row && j % 9 < x) || (j % 9 == col && j / 9 < x)) :: board[j] != num
    {
      if board[row * 9 + x] == num || board[x * 9 + col] == num {
        return false;
      }
    }
    return true;
  }

  /** The second loop: the box whose first cell is (startRow, startCol). */
  method BoxFree(board: array<int>, startRow: nat, startCol: nat, num: int) returns (ok: bool)
    requires board.Length == 81 && startRow <= 6 && startCol <= 6
    ensures ok <==> forall j: nat | j < 81 && startRow <= j / 9 < startRow + 3 && startCol <= j % 9 < startCol + 3 :: board[j] != num
  {
    for i := 0 to 3
      invariant forall j: nat | j < 81 && startRow <= j / 9 < startRow + i && startCol <= j % 9 < startCol + 3 :: board[j] != num
    {
      for j := 0 to 3
        invariant forall c: nat | c < 81 && c / 9 == startRow + i && startCol <= c % 9 < startCol + j :: board[c] != num
      {
        if board[(i + startRow) * 9 + (j + startCol)] == num {
          return false;
        }
      }
    }
    return true;
  }

  /** Row, column and box together are the cell and its peers. */
  lemma Neighbourhood(row: nat, col: nat, j: nat)
    requires row < 9 && col < 9 && j < 81
    ensures var r, c := row - row % 3, col - col % 3;
            (j / 9 == row || j % 9 == col || (r <= j / 9 < r + 3 && c <= j % 9 < c + 3)) <==>
            (j == row * 9 + col || Peer(row * 9 + col, j))
  {
    CellParts(row, col);
    CellParts(j / 9, j % 9);
    SameThird(j / 9, row);
    SameThird(j % 9, col);
  }

  lemma CellParts(row: nat, col: nat)
    requires row < 9 && col < 9
    ensures var i := row * 9 + col; i / 9 == row && i % 9 == col && i / 27 == row / 3
  {
  }

  lemma SameThird(a: nat, b: nat)
    requires a < 9 && b < 9
    ensures b - b % 3 <= a < b - b % 3 + 3 <==> a / 3 == b / 3
  {
  }

  /** `can_place`: its scans see exactly the cell and its peers. */
  method CanPlace(board: array<int>, row: nat, col: nat, num: int) returns (ok: bool)
    requires board.Length == 81 && row < 9 && col < 9
    ensures ok <==> board[row * 9 + col] != num && Allowed(board[..], row * 9 + col, num)
  {
    hide Peer;
    forall j: nat | j < 81
      ensures var r, c := row - row % 3, col - col % 3;
              (j / 9 == row || j % 9 == col || (r <= j / 9 < r + 3 && c <= j % 9 < c + 3)) <==>
              (j == row * 9 + col || Peer(row * 9 + col, j))
    {
      Neighbourhood(row, col, j);
    }
    ok := LinesFree(board, row, col, num);
    if ok {
      ok := BoxFree(board, row - row % 3, col - col % 3, num);
    }
  }

  /** `solve_sudoku`: it finds a completion exactly when there is one, and otherwise restores the board. */
  method Solve(board: array<int>) returns (solved: bool)
    requires board.Length == 81
    modifies board
    ensures solved ==> Completes(board[..], old(board[..]))
    ensures !solved ==> board[..] == old(board[..]) && forall s: Board :: !Completes(s, old(board[..]))
    decreases EmptyCells(board[..])
  {
    hide Peer, EmptyCells;
    ghost var b: Board := board[..];
    for i := 0 to 81
      invariant board[..] == b && forall j | 0 <= j < i :: b[j] != 0
    {
      if board[i] == 0 {
        var row, col := i / 9, i % 9;
        for num := 1 to 10
          invariant board[..] == b
          invariant forall s: Board | Completes(s, b) :: s[i] >= num
        {
          var ok := CanPlace(board, row, col, num);
          if ok {
            FillReduces(b, i, num);
            board[i] := num;
            assert board[..] == b[i := num];
            var done := Solve(board);
            if done {
              Branch(board[..], b, i, num);
              return true;
            }
            board[i] := 0;
            assert board[..] == b;
          }
          forall s: Board | Completes(s, b) ensures s[i] >= num + 1 {
            Branch(s, b, i, num);
          }
        }
        return false;
      }
    }
    return true;
  }
}
