/**
 * The edit distance of the Brickset price import: the textbook
 * insert/delete/substitute distance as a recurrence, and the `levenshtein`
 * routine that fills its table row by row.
 */
module EditDistances {
  function Min3(x: nat, y: nat, z: nat): nat
  {
    if x <= y && x <= z then x else if y <= z then y else z
  }

  /**
   * The edit distance of the prefixes `a[..i]` and `b[..j]`: the fewest
   * single-character insertions, deletions and substitutions turning one
   * into the other (the Wagner–Fischer recurrence).
   */
  function Edit(a: string, b: string, i: nat, j: nat): nat
    requires i <= |a| && j <= |b|
    decreases i + j
  {
    if i == 0 then j
    else if j == 0 then i
    else Min3(Edit(a, b, i - 1, j) + 1, Edit(a, b, i, j - 1) + 1,
              Edit(a, b, i - 1, j - 1) + (if a[i - 1] == b[j - 1] then 0 else 1))
  }

  /** The edit distance of `a` and `b`. */
  function EditDistance(a: string, b: string): nat
  {
    Edit(a, b, |a|, |b|)
  }

  /**
   * The cell `dp[i][j]` that `levenshtein` fills: on equal characters it
   * copies the diagonal cell without comparing it with the other two.
   */
  function Cell(a: string, b: string, i: nat, j: nat): nat
    requires i <= |a| && j <= |b|
    decreases i + j
  {
    if i == 0 then j
    else if j == 0 then i
    else if a[i - 1] == b[j - 1] then Cell(a, b, i - 1, j - 1)
    else 1 + Min3(Cell(a, b, i - 1, j), Cell(a, b, i, j - 1), Cell(a, b, i - 1, j - 1))
  }

  /** Dropping the last character of `b` changes the distance by at most one. */
  lemma {:induction false} EditDropB(a: string, b: string, i: nat, j: nat)
    requires i <= |a| && 0 < j <= |b|
    ensures Edit(a, b, i, j - 1) <= Edit(a, b, i, j) + 1
    decreases i
  {
    if i > 0 {
      EditDropB(a, b, i - 1, j);
    }
  }

  /** Dropping the last character of `a` changes the distance by at most one. */
  lemma {:induction false} EditDropA(a: string, b: string, i: nat, j: nat)
    requires 0 < i <= |a| && j <= |b|
    ensures Edit(a, b, i - 1, j) <= Edit(a, b, i, j) + 1
    decreases j
  {
    if j > 0 {
      EditDropA(a, b, i, j - 1);
    }
  }

  /** Equal last characters cost nothing: the distance is that of the two shorter prefixes. */
  lemma EditSameLast(a: string, b: string, i: nat, j: nat)
    requires 0 < i <= |a| && 0 < j <= |b| && a[i - 1] == b[j - 1]
    ensures Edit(a, b, i, j) == Edit(a, b, i - 1, j - 1)
  {
    EditDropB(a, b, i - 1, j);
    EditDropA(a, b, i, j - 1);
  }

  /** The table `levenshtein` fills holds the edit distances of the prefixes. */
  lemma {:induction false} CellIsEdit(a: string, b: string, i: nat, j: nat)
    requires i <= |a| && j <= |b|
    ensures Cell(a, b, i, j) == Edit(a, b, i, j)
    decreases i + j
  {
    if i > 0 && j > 0 {
      CellIsEdit(a, b, i - 1, j - 1);
      if a[i - 1] == b[j - 1] {
        EditSameLast(a, b, i, j);
      } else {
        CellIsEdit(a, b, i - 1, j);
        CellIsEdit(a, b, i, j - 1);
      }
    }
  }

  /** The distance is 0 exactly between equal strings. */
  lemma {:induction false} EditZeroIff(a: string, b: string, i: nat, j: nat)
    requires i <= |a| && j <= |b|
    ensures Edit(a, b, i, j) == 0 <==> i == j && a[..i] == b[..j]
    decreases i + j
  {
    if i > 0 && j > 0 {
      EditZeroIff(a, b, i - 1, j - 1);
      assert a[..i] == a[..i - 1] + [a[i - 1]];
      assert b[..j] == b[..j - 1] + [b[j - 1]];
      if i == j && a[..i] == b[..j] {
        assert a[i - 1] == a[..i][i - 1] == b[..j][j - 1] == b[j - 1];
        assert a[..i - 1] == a[..i][..i - 1];
        assert b[..j - 1] == b[..j][..j - 1];
      }
    }
  }

  /** The distance does not depend on the order of its arguments. */
  lemma {:induction false} EditSymmetric(a: string, b: string, i: nat, j: nat)
    requires i <= |a| && j <= |b|
    ensures Edit(a, b, i, j) == Edit(b, a, j, i)
    decreases i + j
  {
    if i > 0 && j > 0 {
      EditSymmetric(a, b, i - 1, j);
      EditSymmetric(a, b, i, j - 1);
      EditSymmetric(a, b, i - 1, j - 1);
    }
  }

  /** The distance is at most the larger of the two lengths. */
  lemma {:induction false} EditUpper(a: string, b: string, i: nat, j: nat)
    requires i <= |a| && j <= |b|
    ensures Edit(a, b, i, j) <= if i >= j then i else j
    decreases i + j
  {
    if i > 0 && j > 0 {
      EditUpper(a, b, i - 1, j - 1);
    }
  }

  /** The distance is at least the difference of the two lengths. */
  lemma {:induction false} EditLower(a: string, b: string, i: nat, j: nat)
    requires i <= |a| && j <= |b|
    ensures Edit(a, b, i, j) >= if i >= j then i - j else j - i
    decreases i + j
  {
    if i > 0 && j > 0 {
      EditLower(a, b, i - 1, j);
      EditLower(a, b, i, j - 1);
      EditLower(a, b, i - 1, j - 1);
    }
  }

  /** The properties of the distance on whole strings. */
  lemma EditDistanceProperties(a: string, b: string)
    ensures EditDistance(a, b) == 0 <==> a == b
    ensures EditDistance("", b) == |b|
    ensures EditDistance(a, b) == EditDistance(b, a)
    ensures EditDistance(a, b) <= if |a| >= |b| then |a| else |b|
    ensures EditDistance(a, b) >= |a| - |b| && EditDistance(a, b) >= |b| - |a|
  {
    EditZeroIff(a, b, |a|, |b|);
    assert a[..|a|] == a && b[..|b|] == b;
    EditSymmetric(a, b, |a|, |b|);
    EditUpper(a, b, |a|, |b|);
    EditLower(a, b, |a|, |b|);
  }

  /** The cell `dp[i][j]` of an inner position, from its three neighbours. */
  lemma CellStep(a: string, b: string, i: nat, j: nat)
    requires 0 < i <= |a| && 0 < j <= |b|
    ensures Cell(a, b, i, j) == if a[i - 1] == b[j - 1] then Cell(a, b, i - 1, j - 1)
      else 1 + Min3(Cell(a, b, i - 1, j), Cell(a, b, i, j - 1), Cell(a, b, i - 1, j - 1))
  {
  }

  /** Row `i` of the table: the cells `dp[i][0..|b|]`. */
  function CellRow(a: string, b: string, i: nat): (r: seq<nat>)
    requires i <= |a|
    ensures |r| == |b| + 1
    ensures forall c :: 0 <= c <= |b| ==> r[c] == Cell(a, b, i, c)
  {
    seq(|b| + 1, c requires 0 <= c <= |b| => Cell(a, b, i, c))
  }

  /** One row of `levenshtein`'s table: row `row` computed from the row `prev` above it. */
  method FillRow(a: string, b: string, dp: array2<nat>, prev: nat, row: nat)
    requires dp.Length0 == |a| + 1 && dp.Length1 == |b| + 1 && row == prev + 1 <= |a|
    requires forall c :: 0 <= c <= |b| ==> dp[prev, c] == Cell(a, b, prev, c)
    requires dp[row, 0] == row
    modifies dp
    ensures forall c :: 0 <= c <= |b| ==> dp[row, c] == Cell(a, b, row, c)
    ensures forall r, c :: 0 <= r < dp.Length0 && r != row && 0 <= c < dp.Length1 ==> dp[r, c] == old(dp[r, c])
  {
    ghost var above, want := CellRow(a, b, prev), CellRow(a, b, row);
    var j := 1;
    while j <= |b|
      invariant 1 <= j <= |b| + 1
      invariant forall c :: 0 <= c < j ==> dp[row, c] == want[c]
      invariant forall r, c :: 0 <= r < dp.Length0 && r != row && 0 <= c < dp.Length1 ==> dp[r, c] == old(dp[r, c])
    {
      var v: nat;
      if a[prev] == b[j - 1] {
        v := dp[prev, j - 1];
      } else {
        v := 1 + Min3(dp[prev, j], dp[row, j - 1], dp[prev, j - 1]);
      }
      CellStep(a, b, row, j);
      assert v == want[j];
      dp[row, j] := v;
      j := j + 1;
    }
  }

  /** `levenshtein`: fills the `(|a| + 1) × (|b| + 1)` table row by row and returns its last cell. */
  method Levenshtein(a: string, b: string) returns (d: nat)
    ensures d == EditDistance(a, b)
  {
    var m, n := |a|, |b|;
    var dp := new nat[m + 1, n + 1]((i, j) => if i == 0 then j else if j == 0 then i else 0);
    var i := 0;
    while i < m
      invariant 0 <= i <= m
      invariant forall c :: 0 <= c <= n ==> dp[i, c] == Cell(a, b, i, c)
      invariant forall r :: i < r <= m ==> dp[r, 0] == r
    {
      FillRow(a, b, dp, i, i + 1);
      i := i + 1;
    }
    d := dp[m, n];
    CellIsEdit(a, b, m, n);
  }
}
