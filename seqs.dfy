/** Generic sequence and row-major index helpers shared by the pixel buffer and the character grid. */
module Seqs {
  /** Concatenation of a sequence of rows, in order. */
  function Flatten<T>(rows: seq<seq<T>>): seq<T>
    decreases |rows|
  {
    if rows == [] then [] else Flatten(rows[..|rows| - 1]) + rows[|rows| - 1]
  }

  /** Every row has exactly `width` elements. */
  predicate Uniform<T>(rows: seq<seq<T>>, width: nat) {
    forall k :: 0 <= k < |rows| ==> |rows[k]| == width
  }

  lemma FlattenAppend<T>(rows: seq<seq<T>>, row: seq<T>)
    ensures Flatten(rows + [row]) == Flatten(rows) + row
  {
    assert (rows + [row])[..|rows|] == rows;
  }

  /** A non-empty sequence is its prefix followed by its last element. */
  lemma InitLast<T>(s: seq<T>)
    requires |s| > 0
    ensures s == s[..|s| - 1] + [s[|s| - 1]]
  {
  }

  /** A uniform grid flattens to width · rows elements. */
  lemma {:induction false} FlattenLength<T>(rows: seq<seq<T>>, width: nat)
    requires Uniform(rows, width)
    ensures |Flatten(rows)| == width * |rows|
    decreases |rows|
  {
    if rows != [] {
      var n := |rows| - 1;
      assert Uniform(rows[..n], width);
      FlattenLength(rows[..n], width);
      StepMul(width, n);
    }
  }

  /** Row k of a uniform grid occupies positions width·k .. width·k + width of the flattening. */
  lemma {:induction false} FlattenUniform<T>(rows: seq<seq<T>>, width: nat, k: nat)
    requires Uniform(rows, width) && k < |rows|
    ensures |Flatten(rows)| == width * |rows|
    ensures width * k + width <= |Flatten(rows)|
    ensures Flatten(rows)[width * k .. width * k + width] == rows[k]
    decreases |rows|
  {
    var n := |rows| - 1;
    var init := rows[..n];
    assert Uniform(init, width);
    FlattenLength(init, width);
    StepMul(width, n);
    var front := Flatten(init);
    assert Flatten(rows) == front + rows[n];
    StepMul(width, k);
    if k < n {
      MulLe(width, k + 1, n);
      FlattenUniform(init, width, k);
      SliceOfFront(front, rows[n], width * k, width * k + width);
    } else {
      assert (front + rows[n])[|front|..] == rows[n];
    }
  }

  /** A slice that ends inside the first part of a concatenation is a slice of that part. */
  lemma SliceOfFront<T>(a: seq<T>, b: seq<T>, i: nat, j: nat)
    requires i <= j <= |a|
    ensures (a + b)[i..j] == a[i..j]
  {
  }

  /** Element t of row k of a uniform grid is element width·k + t of the flattening. */
  lemma FlattenUniformAt<T>(rows: seq<seq<T>>, width: nat, k: nat, t: nat)
    requires Uniform(rows, width) && k < |rows| && t < width
    ensures |Flatten(rows)| == width * |rows|
    ensures width * k + t < |Flatten(rows)|
    ensures Flatten(rows)[width * k + t] == rows[k][t]
  {
    FlattenUniform(rows, width, k);
    assert Flatten(rows)[width * k .. width * k + width][t] == rows[k][t];
  }

  // ---------------------------------------------------------------------------------------
  // Index arithmetic

  /** A whole row y < height fits in a width × height buffer. */
  lemma RowFits(width: nat, height: nat, y: nat)
    requires y < height
    ensures width * y + width <= width * height
  {
    MulLe(width, y + 1, height);
  }

  /** One more row of width w starts w further on. */
  lemma StepMul(w: nat, a: nat)
    ensures w * a + w == w * (a + 1)
  {
  }

  lemma {:induction false} MulLe(w: nat, a: nat, b: nat)
    requires a <= b
    ensures w * a <= w * b
    decreases b - a
  {
    if a < b {
      MulLe(w, a, b - 1);
    }
  }

  /** Distinct in-row coordinates have distinct flat indices. */
  lemma IndexInjective(width: nat, x1: nat, y1: nat, x2: nat, y2: nat)
    requires x1 < width && x2 < width
    requires width * y1 + x1 == width * y2 + x2
    ensures x1 == x2 && y1 == y2
  {
    if y1 < y2 {
      MulLe(width, y1 + 1, y2);
    } else if y2 < y1 {
      MulLe(width, y2 + 1, y1);
    }
  }
}
