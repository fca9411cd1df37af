/**
  Slices cut into rows, as `chunks` cuts them.
 */
module Slices {
  import opened Arith

  /** Every row is w long. */
  predicate RowsOf<T>(rows: seq<seq<T>>, w: nat) {
    forall r :: 0 <= r < |rows| ==> |rows[r]| == w
  }

  /** `image.chunks(w)`: consecutive pieces of w elements, the last one shorter when w does
      not divide the length. */
  function Chunks<T>(image: seq<T>, w: nat): (rows: seq<seq<T>>)
    requires w > 0
    decreases |image|
  {
    if image == [] then []
    else if |image| <= w then [image]
    else [image[..w]] + Chunks(image[w..], w)
  }

  /** An image of n rows of w pixels is cut into n pieces. */
  lemma {:induction false} ChunksLength<T>(image: seq<T>, w: nat, n: nat)
    requires w > 0 && |image| == Mul(n, w)
    ensures |Chunks(image, w)| == n
    decreases n
  {
    if n > 1 {
      MulMono(1, n - 1, w);
      ChunksLength(image[w..], w, n - 1);
    }
  }

  /** Piece r of such an image is its row r. */
  lemma {:induction false} ChunksRow<T>(image: seq<T>, w: nat, n: nat, r: nat)
    requires w > 0 && |image| == Mul(n, w) && r < n
    ensures Mul(r, w) + w <= |image| && r < |Chunks(image, w)|
    ensures Chunks(image, w)[r] == image[Mul(r, w)..Mul(r, w) + w]
    decreases r
  {
    ChunksLength(image, w, n);
    var next := r + 1;
    MulMono(next, n, w);
    assert Mul(next, w) == Mul(r, w) + w;
    if r > 0 {
      var q, m, rest := r - 1, n - 1, image[w..];
      MulMono(1, m, w);
      assert Mul(n, w) == Mul(m, w) + w;
      assert Chunks(image, w) == [image[..w]] + Chunks(rest, w);
      ChunksRow(rest, w, m, q);
      assert Mul(r, w) == Mul(q, w) + w;
      assert rest[Mul(q, w)..Mul(q, w) + w] == image[Mul(r, w)..Mul(r, w) + w];
    }
  }

  /** An image of n rows of w pixels is cut into n rows of w pixels each. */
  lemma {:induction false} ChunksShape<T>(image: seq<T>, w: nat, n: nat)
    requires w > 0 && |image| == Mul(n, w)
    ensures |Chunks(image, w)| == n && RowsOf(Chunks(image, w), w)
  {
    ChunksLength(image, w, n);
    forall r | 0 <= r < n
      ensures |Chunks(image, w)[r]| == w
    {
      ChunksRow(image, w, n, r);
    }
  }

  /** A length that w divides is a whole number of rows. */
  lemma RowCount(len: nat, w: nat)
    requires w > 0 && len % w == 0
    ensures len == Mul(len / w, w)
  {
    MulIsProduct(len / w, w);
  }

  /** Putting the pieces back together gives the slice: nothing is dropped, duplicated or
      reordered. */
  lemma {:induction false} ChunksConcat<T>(image: seq<T>, w: nat)
    requires w > 0
    ensures Concat(Chunks(image, w)) == image
    ensures forall r :: 0 <= r < |Chunks(image, w)| ==> 0 < |Chunks(image, w)[r]| <= w
    decreases |image|
  {
    if |image| > w {
      ChunksConcat(image[w..], w);
      assert Chunks(image, w) == [image[..w]] + Chunks(image[w..], w);
      assert image == image[..w] + image[w..];
    }
  }

  /** Appending a piece of at most w elements to k whole pieces appends it to the cut:
      this is how a buffer of w elements that is flushed when full, and once more at the end
      if anything is left, cuts a stream. */
  lemma {:induction false} ChunksSnoc<T>(done: seq<T>, piece: seq<T>, w: nat, k: nat)
    requires w > 0 && |done| == Mul(k, w) && 0 < |piece| <= w
    ensures Chunks(done + piece, w) == Chunks(done, w) + [piece]
    decreases k
  {
    if k == 0 {
      assert done + piece == piece;
    } else {
      var m, rest := k - 1, done[w..];
      assert |rest| == Mul(m, w);
      ChunksSnoc(rest, piece, w, m);
      assert (done + piece)[..w] == done[..w];
      assert (done + piece)[w..] == rest + piece;
      if |done| == w {
        assert done[..w] == done;
      }
    }
  }

  /** Every piece but the last is a whole w elements; the last one holds 1 to w; and there
      are pieces exactly when there are elements. */
  lemma {:induction false} ChunksFull<T>(image: seq<T>, w: nat)
    requires w > 0
    ensures Chunks(image, w) == [] <==> image == []
    ensures forall r :: 0 <= r < |Chunks(image, w)| - 1 ==> |Chunks(image, w)[r]| == w
    ensures Chunks(image, w) != [] ==> 0 < |Chunks(image, w)[|Chunks(image, w)| - 1]| <= w
    decreases |image|
  {
    if |image| > w {
      ChunksFull(image[w..], w);
      assert Chunks(image, w) == [image[..w]] + Chunks(image[w..], w);
    }
  }

  /** The pieces one after another. */
  function Concat<T>(rows: seq<seq<T>>): (s: seq<T>)
    decreases |rows|
  {
    if rows == [] then [] else rows[0] + Concat(rows[1..])
  }

  /** One more piece at the end is appended at the end. */
  lemma {:induction false} ConcatSnoc<T>(rows: seq<seq<T>>, last: seq<T>)
    ensures Concat(rows + [last]) == Concat(rows) + last
    decreases |rows|
  {
    if rows == [] {
      assert [] + [last] == [last];
      assert Concat([last]) == last + Concat([last][1..]);
      assert last + [] == last;
    } else {
      var whole := rows + [last];
      assert whole[0] == rows[0] && whole[1..] == rows[1..] + [last];
      ConcatSnoc(rows[1..], last);
      assert rows[0] + (Concat(rows[1..]) + last) == rows[0] + Concat(rows[1..]) + last;
    }
  }

  /** n pieces of w elements make n·w elements. */
  lemma {:induction false} ConcatLength<T>(rows: seq<seq<T>>, w: nat)
    requires RowsOf(rows, w)
    ensures |Concat(rows)| == Mul(|rows|, w)
    decreases |rows|
  {
    if rows != [] {
      ConcatLength(rows[1..], w);
    }
  }

  /** The elements of piece r of pieces that are all three long. */
  lemma PieceOfThree<T>(whole: seq<T>, rows: seq<seq<T>>, r: nat)
    requires RowsOf(rows, 3) && r < |rows| && whole == Concat(rows)
    ensures 3 * r + 2 < |whole|
    ensures whole[3 * r] == rows[r][0] && whole[3 * r + 1] == rows[r][1] && whole[3 * r + 2] == rows[r][2]
  {
    ConcatPiece(rows, 3, r);
    MulIsProduct(r, 3);
    SliceElems(whole, 3 * r, rows[r]);
  }

  lemma SliceElems<T>(whole: seq<T>, k: nat, piece: seq<T>)
    requires |piece| == 3 && k + 3 <= |whole| && whole[k..k + 3] == piece
    ensures whole[k] == piece[0] && whole[k + 1] == piece[1] && whole[k + 2] == piece[2]
  {
    assert whole[k] == whole[k..k + 3][0];
    assert whole[k + 1] == whole[k..k + 3][1];
    assert whole[k + 2] == whole[k..k + 3][2];
  }

  /** Piece r of pieces that are all w long sits at r·w. */
  lemma {:induction false} ConcatPiece<T>(rows: seq<seq<T>>, w: nat, r: nat)
    requires RowsOf(rows, w) && r < |rows|
    ensures Mul(r, w) + w <= |Concat(rows)|
    ensures Concat(rows)[Mul(r, w)..Mul(r, w) + w] == rows[r]
    decreases r
  {
    ConcatLength(rows, w);
    var next := r + 1;
    MulMono(next, |rows|, w);
    assert Mul(next, w) == Mul(r, w) + w;
    var all, rest := Concat(rows), Concat(rows[1..]);
    assert all == rows[0] + rest;
    if r == 0 {
      assert all[0..w] == rows[0];
    } else {
      var q := r - 1;
      ConcatPiece(rows[1..], w, q);
      assert Mul(r, w) == Mul(q, w) + w;
      assert all[Mul(r, w)..Mul(r, w) + w] == rest[Mul(q, w)..Mul(q, w) + w];
    }
  }
}
