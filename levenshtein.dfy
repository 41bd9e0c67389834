/** The edit distance the vocabulary service ranks near-miss terms by.
    `Lev` states the recurrence the matrix implements, cell by cell: equal
    last characters take the diagonal, otherwise one more than the best of
    substitution, insertion and deletion. */
module Levenshtein {
  import opened Common

  function Min3(a: int, b: int, c: int): int {
    Min(a, Min(b, c))
  }

  /** The matrix cell for the prefixes `a` of `str1` and `b` of `str2`. */
  function Lev(a: string, b: string): nat
    decreases |a| + |b|
  {
    if |a| == 0 then |b|
    else if |b| == 0 then |a|
    else if a[|a| - 1] == b[|b| - 1] then Lev(a[..|a| - 1], b[..|b| - 1])
    else 1 + Min3(Lev(a[..|a| - 1], b[..|b| - 1]), Lev(a[..|a| - 1], b), Lev(a, b[..|b| - 1]))
  }

  /** `levenshteinDistance(str1, str2)`: the matrix has a row per prefix of
      `str2` and a column per prefix of `str1`. */
  method LevenshteinDistance(str1: string, str2: string) returns (d: nat)
    ensures d == Lev(str1, str2)
  {
    var matrix := new nat[|str2| + 1, |str1| + 1];
    for i := 0 to |str2| + 1
      invariant forall ii :: 0 <= ii < i ==> matrix[ii, 0] == Cell(str1, str2, ii, 0)
    {
      matrix[i, 0] := i;
    }
    for j := 0 to |str1| + 1
      invariant forall ii :: 0 < ii <= |str2| ==> matrix[ii, 0] == Cell(str1, str2, ii, 0)
      invariant forall jj :: 0 <= jj < j ==> matrix[0, jj] == Cell(str1, str2, 0, jj)
    {
      matrix[0, j] := j;
    }
    for i := 1 to |str2| + 1
      invariant Filled(matrix, str1, str2, i, 1)
    {
      FillRow(matrix, str1, str2, i);
    }
    d := matrix[|str2|, |str1|];
    assert str1[..|str1|] == str1 && str2[..|str2|] == str2;
  }

  /** The matrix cell for row `ii` and column `jj`. */
  ghost function Cell(s1: string, s2: string, ii: nat, jj: nat): nat
    requires ii <= |s2| && jj <= |s1|
  {
    Lev(s1[..jj], s2[..ii])
  }

  /** Column 0 and row 0 are filled, so are the rows above `i`, and row `i`
      up to column `j`. */
  ghost predicate Filled(m: array2<nat>, s1: string, s2: string, i: nat, j: nat)
    reads m
  {
    m.Length0 == |s2| + 1 && m.Length1 == |s1| + 1 && i <= |s2| + 1 &&
    forall ii, jj :: 0 <= ii <= |s2| && 0 <= jj <= |s1| && (ii == 0 || jj == 0 || ii < i || (ii == i && jj < j)) ==>
      m[ii, jj] == Cell(s1, s2, ii, jj)
  }

  method FillRow(m: array2<nat>, s1: string, s2: string, i: nat)
    requires 1 <= i <= |s2| && Filled(m, s1, s2, i, 1)
    modifies m
    ensures Filled(m, s1, s2, i + 1, 1)
  {
    for j := 1 to |s1| + 1
      invariant Filled(m, s1, s2, i, j)
    {
      FillCell(m, s1, s2, i, j);
    }
  }

  /** Cell `(i, j)` from its three neighbours above and to the left. */
  method FillCell(m: array2<nat>, s1: string, s2: string, i: nat, j: nat)
    requires 1 <= i <= |s2| && 1 <= j <= |s1| && Filled(m, s1, s2, i, j)
    modifies m
    ensures Filled(m, s1, s2, i, j + 1)
  {
    LevStep(s1, s2, j, i);
    var v;
    if s2[i - 1] == s1[j - 1] {
      v := m[i - 1, j - 1];
    } else {
      v := Min3(m[i - 1, j - 1] + 1, m[i, j - 1] + 1, m[i - 1, j] + 1);
    }
    assert v == Cell(s1, s2, i, j);
    m[i, j] := v;
  }

  /** One step of the recurrence, written on prefixes of the two inputs. */
  lemma LevStep(s1: string, s2: string, j: nat, i: nat)
    requires 1 <= j <= |s1| && 1 <= i <= |s2|
    ensures Lev(s1[..j], s2[..i]) ==
      if s2[i - 1] == s1[j - 1] then Lev(s1[..j - 1], s2[..i - 1])
      else Min3(Lev(s1[..j - 1], s2[..i - 1]) + 1, Lev(s1[..j - 1], s2[..i]) + 1, Lev(s1[..j], s2[..i - 1]) + 1)
  {
    assert s1[..j][..j - 1] == s1[..j - 1];
    assert s2[..i][..i - 1] == s2[..i - 1];
  }

  lemma LevEmptyRight(s: string)
    ensures Lev(s, "") == |s|
  {
  }

  lemma LevEmptyLeft(t: string)
    ensures Lev("", t) == |t|
  {
  }

  /** A string is at distance 0 from itself. */
  lemma {:induction false} LevSelf(s: string)
    ensures Lev(s, s) == 0
    decreases |s|
  {
    if |s| > 0 {
      LevSelf(s[..|s| - 1]);
    }
  }

  /** Distance 0 means the strings are equal, which is why a term never
      suggests itself. */
  lemma {:induction false} LevZero(a: string, b: string)
    requires Lev(a, b) == 0
    ensures a == b
    decreases |a| + |b|
  {
    if |a| > 0 && |b| > 0 {
      LevZero(a[..|a| - 1], b[..|b| - 1]);
      assert a == a[..|a| - 1] + [a[|a| - 1]];
      assert b == b[..|b| - 1] + [b[|b| - 1]];
    }
  }

  lemma LevZeroIff(a: string, b: string)
    ensures Lev(a, b) == 0 <==> a == b
  {
    if a == b {
      LevSelf(a);
    } else if Lev(a, b) == 0 {
      LevZero(a, b);
    }
  }

  /** The distance never exceeds the longer length. */
  lemma {:induction false} LevUpper(a: string, b: string)
    ensures Lev(a, b) <= Max(|a|, |b|)
    decreases |a| + |b|
  {
    if |a| > 0 && |b| > 0 {
      LevUpper(a[..|a| - 1], b[..|b| - 1]);
    }
  }

  /** The distance is at least the difference in length. */
  lemma {:induction false} LevLower(a: string, b: string)
    ensures Lev(a, b) >= if |a| >= |b| then |a| - |b| else |b| - |a|
    decreases |a| + |b|
  {
    if |a| > 0 && |b| > 0 {
      LevLower(a[..|a| - 1], b[..|b| - 1]);
      LevLower(a[..|a| - 1], b);
      LevLower(a, b[..|b| - 1]);
    }
  }
}
