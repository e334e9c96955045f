/** Assembly of the local moment matrix M = P^T P from the weighted basis
    matrix P (GMLS/src/Compadre_LinearAlgebra_Definitions.hpp, createM).

    P is stored column-major in a flat buffer: column i starts at offset
    i * ld, where ld is the leading dimension (the number of rows of the
    underlying view). Only the first `rows` entries of each of the first
    `columns` columns take part. Values are modelled as reals, so the sums
    below are exact. */
module LinearAlgebra {
  import opened Vectors

  /** The first `columns` columns, each `rows` long, of a column-major buffer
      of length `len` with leading dimension `ld` lie inside the buffer. */
  predicate Fits(len: nat, ld: nat, rows: nat, columns: nat)
  {
    rows <= ld && columns * ld <= len
  }

  lemma ColumnInBuffer(len: nat, ld: nat, rows: nat, columns: nat, i: nat)
    requires Fits(len, ld, rows, columns) && i < columns
    ensures i * ld + rows <= len
  {
    assert i * ld + ld == (i + 1) * ld;
    assert (i + 1) * ld <= columns * ld by {
      assert i + 1 <= columns;
    }
  }

  /** Column i of P: entries p[i*ld + k] for k < rows. */
  function Column(p: seq<real>, ld: nat, rows: nat, columns: nat, i: nat): (c: seq<real>)
    requires Fits(|p|, ld, rows, columns) && i < columns
    ensures |c| == rows
    ensures forall k :: 0 <= k < rows ==> i * ld + k < |p| && c[k] == p[i * ld + k]
  {
    ColumnInBuffer(|p|, ld, rows, columns, i);
    p[i * ld .. i * ld + rows]
  }

  /** Partial off-diagonal reduction: sum over k < n of P(k,i) * P(k,j). */
  function CrossSum(p: seq<real>, ld: nat, rows: nat, columns: nat, i: nat, j: nat, n: nat): real
    requires Fits(|p|, ld, rows, columns) && i < columns && j < columns && n <= rows
  {
    ColumnInBuffer(|p|, ld, rows, columns, i);
    ColumnInBuffer(|p|, ld, rows, columns, j);
    if n == 0 then 0.0
    else CrossSum(p, ld, rows, columns, i, j, n - 1) + p[i * ld + n - 1] * p[j * ld + n - 1]
  }

  /** Partial diagonal reduction: sum over k < n of P(k,i)^2. */
  function SquareSum(p: seq<real>, ld: nat, rows: nat, columns: nat, i: nat, n: nat): real
    requires Fits(|p|, ld, rows, columns) && i < columns && n <= rows
  {
    ColumnInBuffer(|p|, ld, rows, columns, i);
    if n == 0 then 0.0
    else SquareSum(p, ld, rows, columns, i, n - 1) + p[i * ld + n - 1] * p[i * ld + n - 1]
  }

  /** The value createM stores at (a, b) of the leading block: the diagonal
      is its own sum of squares, and each off-diagonal value is reduced once,
      with the larger index first, and stored at both (a, b) and (b, a). */
  function Entry(p: seq<real>, ld: nat, rows: nat, columns: nat, a: nat, b: nat): real
    requires Fits(|p|, ld, rows, columns) && a < columns && b < columns
  {
    if a == b then SquareSum(p, ld, rows, columns, a, rows)
    else if b < a then CrossSum(p, ld, rows, columns, a, b, rows)
    else CrossSum(p, ld, rows, columns, b, a, rows)
  }

  /** The off-diagonal reduction is the inner product of the two columns. */
  lemma {:induction false} CrossSumIsColumnDot(p: seq<real>, ld: nat, rows: nat, columns: nat, i: nat, j: nat, n: nat)
    requires Fits(|p|, ld, rows, columns) && i < columns && j < columns && n <= rows
    ensures CrossSum(p, ld, rows, columns, i, j, n)
         == Dot(Column(p, ld, rows, columns, i)[..n], Column(p, ld, rows, columns, j)[..n])
    decreases n
  {
    var ci, cj := Column(p, ld, rows, columns, i), Column(p, ld, rows, columns, j);
    if n > 0 {
      CrossSumIsColumnDot(p, ld, rows, columns, i, j, n - 1);
      assert ci[..n][..n - 1] == ci[..n - 1];
      assert cj[..n][..n - 1] == cj[..n - 1];
    }
  }

  /** The diagonal reduction is the off-diagonal formula with i == j. */
  lemma {:induction false} SquareSumIsCrossSum(p: seq<real>, ld: nat, rows: nat, columns: nat, i: nat, n: nat)
    requires Fits(|p|, ld, rows, columns) && i < columns && n <= rows
    ensures SquareSum(p, ld, rows, columns, i, n) == CrossSum(p, ld, rows, columns, i, i, n)
    decreases n
  {
    if n > 0 {
      SquareSumIsCrossSum(p, ld, rows, columns, i, n - 1);
    }
  }

  /** Every entry of the leading block is the inner product of the matching
      columns of P, so the block is the Gram matrix P^T P. */
  lemma EntryIsGram(p: seq<real>, ld: nat, rows: nat, columns: nat, a: nat, b: nat)
    requires Fits(|p|, ld, rows, columns) && a < columns && b < columns
    ensures Entry(p, ld, rows, columns, a, b) == Dot(Column(p, ld, rows, columns, a), Column(p, ld, rows, columns, b))
  {
    var ca, cb := Column(p, ld, rows, columns, a), Column(p, ld, rows, columns, b);
    assert ca[..rows] == ca && cb[..rows] == cb;
    if a == b {
      SquareSumIsCrossSum(p, ld, rows, columns, a, rows);
      CrossSumIsColumnDot(p, ld, rows, columns, a, a, rows);
    } else if b < a {
      CrossSumIsColumnDot(p, ld, rows, columns, a, b, rows);
    } else {
      CrossSumIsColumnDot(p, ld, rows, columns, b, a, rows);
      DotSymmetric(cb, ca);
    }
  }

  /** The leading block is symmetric and its diagonal is non-negative. */
  lemma EntrySymmetricAndDiagonalNonNegative(p: seq<real>, ld: nat, rows: nat, columns: nat, a: nat, b: nat)
    requires Fits(|p|, ld, rows, columns) && a < columns && b < columns
    ensures Entry(p, ld, rows, columns, a, b) == Entry(p, ld, rows, columns, b, a)
    ensures Entry(p, ld, rows, columns, a, a) >= 0.0
  {
    var ca := Column(p, ld, rows, columns, a);
    EntryIsGram(p, ld, rows, columns, a, a);
    DotSelfNonNegative(ca);
  }

  /** createM: fills the leading columns x columns block of M with P^T P,
      reading P column-major from the flat buffer p. Off-diagonal values are
      reduced once and written to both mirror positions; the diagonal is a
      separate sum of squares. Nothing outside the leading block changes,
      and p is only read. */
  method CreateM(M: array2<real>, p: array<real>, ld: nat, columns: nat, rows: nat)
    requires columns <= M.Length0 && columns <= M.Length1
    requires Fits(p.Length, ld, rows, columns)
    modifies M
    ensures forall a, b :: 0 <= a < M.Length0 && 0 <= b < M.Length1 ==>
              M[a, b] == if a < columns && b < columns then Entry(old(p[..]), ld, rows, columns, a, b) else old(M[a, b])
    ensures forall a, b :: 0 <= a < columns && 0 <= b < columns ==>
              M[a, b] == M[b, a] && M[a, b] == Dot(Column(p[..], ld, rows, columns, a), Column(p[..], ld, rows, columns, b))
    ensures forall a :: 0 <= a < columns ==> M[a, a] >= 0.0
  {
    ghost var P := p[..];
    for i := 0 to columns
      invariant forall a, b :: 0 <= a < M.Length0 && 0 <= b < M.Length1 ==>
                  M[a, b] == if a < i && b < i then Entry(P, ld, rows, columns, a, b) else old(M[a, b])
    {
      ColumnInBuffer(p.Length, ld, rows, columns, i);
      // off-diagonal entries (i, j) and (j, i) for j < i
      for j := 0 to i
        invariant forall a, b :: 0 <= a < M.Length0 && 0 <= b < M.Length1 ==>
                    M[a, b] == if (a < i && b < i) || (a == i && b < j) || (b == i && a < j)
                               then Entry(P, ld, rows, columns, a, b) else old(M[a, b])
      {
        ColumnInBuffer(p.Length, ld, rows, columns, j);
        var entry := 0.0;
        for k := 0 to rows
          invariant entry == CrossSum(P, ld, rows, columns, i, j, k)
        {
          entry := entry + p[i * ld + k] * p[j * ld + k];
        }
        M[i, j] := entry;
        M[j, i] := entry;
      }
      // diagonal entry (i, i)
      var entry := 0.0;
      for k := 0 to rows
        invariant entry == SquareSum(P, ld, rows, columns, i, k)
      {
        entry := entry + p[i * ld + k] * p[i * ld + k];
      }
      M[i, i] := entry;
    }
    forall a, b | 0 <= a < columns && 0 <= b < columns
      ensures M[a, b] == M[b, a] && M[a, b] == Dot(Column(P, ld, rows, columns, a), Column(P, ld, rows, columns, b))
      ensures M[a, a] >= 0.0
    {
      EntrySymmetricAndDiagonalNonNegative(P, ld, rows, columns, a, b);
      EntryIsGram(P, ld, rows, columns, a, b);
    }
  }
}
