/** The dense row-major matrix of the solver (matrix<T>, instantiated with
    double). A matrix of dim0 rows and dim1 columns keeps its entries in one
    flat vector, entry (i, j) at position i * dim1 + j (see Area below).

    `Mat` is the value of a matrix and carries the functions that specify
    every operation; `Matrix` is the object whose methods update dim0, dim1
    and data in place, each proved against those functions. */
module Matrices {
  import opened Common

  // ---------------------------------------------------------------------
  // Row-major index arithmetic

  /** The number of entries in `rows` rows of `cols` entries each. Row i of a
      matrix with cols columns starts at flat position Area(i, cols), so entry
      (i, j) sits at Area(i, cols) + j. Keeping the product behind a name lets
      the proofs below state its few needed facts as lemmas. */
  function Area(rows: nat, cols: nat): nat
  {
    rows * cols
  }

  lemma {:induction false} MulMonotone(a: nat, b: nat, c: nat)
    requires a <= b
    ensures a * c <= b * c
  {
    if c > 0 {
      MulMonotone(a, b, c - 1);
      assert a * c == a * (c - 1) + a;
      assert b * c == b * (c - 1) + b;
    }
  }

  lemma MulOrder(a: nat, b: nat, c: nat)
    ensures a <= b ==> a * c <= b * c
  {
    if a <= b {
      MulMonotone(a, b, c);
    }
  }

  /** One more row adds cols entries. */
  lemma AreaStep(i: nat, cols: nat)
    ensures Area(i + 1, cols) == Area(i, cols) + cols
    ensures Area(0, cols) == 0
  {
    assert (i + 1) * cols == i * cols + cols;
  }

  /** Fewer rows hold no more entries. */
  lemma AreaMonotone(a: nat, b: nat, cols: nat)
    requires a <= b
    ensures Area(a, cols) <= Area(b, cols)
  {
    MulMonotone(a, b, cols);
  }

  /** Entry (i, j) of a rows x cols matrix lies inside its data, and so does
      the whole of row i. */
  lemma RowMajorBound(i: nat, j: nat, rows: nat, cols: nat)
    requires i < rows && j < cols
    ensures Area(i, cols) + j < Area(rows, cols)
    ensures Area(i, cols) + cols == Area(i + 1, cols) <= Area(rows, cols)
  {
    MulMonotone(i + 1, rows, cols);
    AreaStep(i, cols);
  }

  /** Row i lies inside the data of a matrix with more than i rows. */
  lemma RowBound(i: nat, rows: nat, cols: nat)
    requires i < rows
    ensures Area(i, cols) + cols == Area(i + 1, cols) <= Area(rows, cols)
  {
    MulMonotone(i + 1, rows, cols);
    AreaStep(i, cols);
  }

  /** The flat position of entry (i, j) gives back its row i and column j. */
  lemma DivMod(i: nat, j: nat, cols: nat)
    requires j < cols
    ensures (Area(i, cols) + j) / cols == i
    ensures (Area(i, cols) + j) % cols == j
  {
    var k := i * cols + j;
    var q, r := k / cols, k % cols;
    assert k == q * cols + r && 0 <= r < cols;
    MulOrder(q + 1, i, cols);
    MulOrder(i + 1, q, cols);
    assert (q + 1) * cols == q * cols + cols;
    assert (i + 1) * cols == i * cols + cols;
  }

  /** Two entries at the same flat position are the same entry. */
  lemma PositionInjective(i: nat, j: nat, r: nat, c: nat, cols: nat)
    requires j < cols && c < cols
    requires Area(i, cols) + j == Area(r, cols) + c
    ensures i == r && j == c
  {
    DivMod(i, j, cols);
    DivMod(r, c, cols);
  }

  /** Every flat position below Area(rows, cols) is some entry (k / cols, k % cols). */
  lemma Split(k: nat, rows: nat, cols: nat)
    requires k < Area(rows, cols)
    ensures cols > 0
    ensures k / cols < rows && k % cols < cols
    ensures k == Area(k / cols, cols) + k % cols
  {
  }

  // ---------------------------------------------------------------------
  // The value of a matrix

  datatype Mat = Mat(dim0: nat, dim1: nat, data: seq<real>) {

    /** The flat vector holds exactly dim0 * dim1 entries. */
    ghost predicate Valid()
    {
      |data| == Area(dim0, dim1)
    }

    /** Entry (i, j). */
    function At(i: nat, j: nat): real
      requires Valid() && i < dim0 && j < dim1
    {
      RowMajorBound(i, j, dim0, dim1);
      data[Area(i, dim1) + j]
    }

    /** The matrix with entry (i, j) replaced by v. */
    function Set(i: nat, j: nat, v: real): (m: Mat)
      requires Valid() && i < dim0 && j < dim1
      ensures m.Valid() && m.dim0 == dim0 && m.dim1 == dim1
      ensures m.At(i, j) == v
      ensures forall r, c :: 0 <= r < dim0 && 0 <= c < dim1 && (r != i || c != j) ==>
        m.At(r, c) == At(r, c)
    {
      RowMajorBound(i, j, dim0, dim1);
      var m := Mat(dim0, dim1, data[Area(i, dim1) + j := v]);
      assert forall r, c :: 0 <= r < dim0 && 0 <= c < dim1 && (r != i || c != j) ==>
          m.At(r, c) == At(r, c) by {
        forall r: nat, c: nat | r < dim0 && c < dim1 && (r != i || c != j)
          ensures m.At(r, c) == At(r, c)
        {
          RowMajorBound(r, c, dim0, dim1);
          if Area(r, dim1) + c == Area(i, dim1) + j {
            PositionInjective(r, c, i, j, dim1);
          }
        }
      }
      m
    }

    /** Row i as a vector of dim1 entries. */
    function Row(i: nat): (r: seq<real>)
      requires Valid() && i < dim0
      ensures |r| == dim1
      ensures forall j :: 0 <= j < dim1 ==> r[j] == At(i, j)
    {
      RowBound(i, dim0, dim1);
      data[Area(i, dim1) .. Area(i, dim1) + dim1]
    }

    /** The list of rows, top to bottom. */
    function Rows(): (rs: seq<seq<real>>)
      requires Valid()
      ensures |rs| == dim0 && Uniform(rs, dim1)
      ensures forall i, j :: 0 <= i < dim0 && 0 <= j < dim1 ==> rs[i][j] == At(i, j)
    {
      seq(dim0, i requires 0 <= i < dim0 => Row(i))
    }

    /** setup(r, c): the flat vector is resized to r * c, keeping its leading
        entries and padding with zeros. */
    function Resized(r: nat, c: nat): (m: Mat)
      ensures m.Valid() && m.dim0 == r && m.dim1 == c
      ensures m.data == Resize(data, Area(r, c), 0.0)
    {
      Mat(r, c, Resize(data, Area(r, c), 0.0))
    }
  }

  /** Resizing a matrix to its own shape keeps it. */
  lemma ResizedSame(m: Mat)
    requires m.Valid()
    ensures m.Resized(m.dim0, m.dim1) == m
  {
    assert m.data[..Area(m.dim0, m.dim1)] == m.data;
  }

  /** Every row of rs has w entries. */
  ghost predicate Uniform(rs: seq<seq<real>>, w: nat)
  {
    forall i :: 0 <= i < |rs| ==> |rs[i]| == w
  }

  /** Two matrices of one shape that agree entry by entry are the same value. */
  lemma Ext(a: Mat, b: Mat)
    requires a.Valid() && b.Valid() && a.dim0 == b.dim0 && a.dim1 == b.dim1
    requires forall i, j :: 0 <= i < a.dim0 && 0 <= j < a.dim1 ==> a.At(i, j) == b.At(i, j)
    ensures a == b
  {
    forall k | 0 <= k < |a.data|
      ensures a.data[k] == b.data[k]
    {
      Split(k, a.dim0, a.dim1);
      var i, j := k / a.dim1, k % a.dim1;
      assert a.At(i, j) == b.At(i, j);
    }
  }

  /** The rows x cols matrix whose entry (i, j) is f(i, j). */
  function Tabulate(rows: nat, cols: nat, f: (nat, nat) -> real): (m: Mat)
    ensures m.Valid() && m.dim0 == rows && m.dim1 == cols
    ensures forall i, j :: 0 <= i < rows && 0 <= j < cols ==> m.At(i, j) == f(i, j)
  {
    var m := Mat(rows, cols, seq(Area(rows, cols), k requires 0 <= k < Area(rows, cols) =>
      Split(k, rows, cols); f(k / cols, k % cols)));
    assert forall i, j :: 0 <= i < rows && 0 <= j < cols ==> m.At(i, j) == f(i, j) by {
      forall i: nat, j: nat | i < rows && j < cols
        ensures m.At(i, j) == f(i, j)
      {
        RowMajorBound(i, j, rows, cols);
        DivMod(i, j, cols);
      }
    }
    m
  }

  /** A rows x cols matrix with every entry equal to v. */
  function Filled(rows: nat, cols: nat, v: real): (m: Mat)
    ensures m.Valid() && m.dim0 == rows && m.dim1 == cols
    ensures forall i, j :: 0 <= i < rows && 0 <= j < cols ==> m.At(i, j) == v
  {
    Tabulate(rows, cols, (_, _) => v)
  }

  /** Tabulating two entry functions that agree on the shape gives one matrix. */
  lemma TabulateExt(rows: nat, cols: nat, f: (nat, nat) -> real, g: (nat, nat) -> real)
    requires forall i, j :: 0 <= i < rows && 0 <= j < cols ==> f(i, j) == g(i, j)
    ensures Tabulate(rows, cols, f) == Tabulate(rows, cols, g)
  {
    Ext(Tabulate(rows, cols, f), Tabulate(rows, cols, g));
  }

  /** The nested loops that write entry (i, j) := f(i, j) for every row i and
      column j of m, row by row: the result is the tabulated matrix, whatever
      m held before. */
  method Fill(m: Mat, f: (nat, nat) -> real) returns (r: Mat)
    requires m.Valid()
    ensures r == Tabulate(m.dim0, m.dim1, f)
  {
    ghost var t := Tabulate(m.dim0, m.dim1, f);
    var data := m.data;
    var i := 0;
    while i < m.dim0
      invariant 0 <= i <= m.dim0
      invariant |data| == |t.data|
      invariant forall k :: 0 <= k < Area(i, m.dim1) ==> data[k] == t.data[k]
    {
      RowBound(i, m.dim0, m.dim1);
      data := FillRow(data, m.dim1, i, f, t);
      i := i + 1;
    }
    r := Mat(m.dim0, m.dim1, data);
  }

  /** One row of Fill: entries (i, 0) .. (i, cols - 1) of the target t. */
  method FillRow(data: seq<real>, cols: nat, i: nat, f: (nat, nat) -> real, ghost t: Mat) returns (d: seq<real>)
    requires t == Tabulate(t.dim0, cols, f)
    requires i < t.dim0 && |data| == |t.data| && Area(i, cols) + cols <= |data|
    requires forall k :: 0 <= k < Area(i, cols) ==> data[k] == t.data[k]
    ensures |d| == |data|
    ensures forall k :: 0 <= k < Area(i, cols) + cols ==> d[k] == t.data[k]
  {
    var row := Area(i, cols);
    d := data;
    var j := 0;
    while j < cols
      invariant 0 <= j <= cols
      invariant |d| == |data|
      invariant forall k :: 0 <= k < row + j ==> d[k] == t.data[k]
    {
      assert t.At(i, j) == f(i, j);
      d := d[row + j := f(i, j)];
      j := j + 1;
    }
  }

  /** The product a * x, named so that the solver treats it as one term. */
  function Scale(a: real, x: real): real
  {
    a * x
  }

  /** The sum of a[i][j] * b[j][k] over the first n values of j. */
  function Dot(a: Mat, b: Mat, i: nat, k: nat, n: nat): real
    requires a.Valid() && b.Valid() && a.dim1 == b.dim0
    requires i < a.dim0 && k < b.dim1 && n <= a.dim1
  {
    if n == 0 then 0.0 else Dot(a, b, i, k, n - 1) + Scale(a.At(i, n - 1), b.At(n - 1, k))
  }

  /** The matrix product a . b. */
  function Product(a: Mat, b: Mat): (c: Mat)
    requires a.Valid() && b.Valid() && a.dim1 == b.dim0
    ensures c.Valid() && c.dim0 == a.dim0 && c.dim1 == b.dim1
    ensures forall i, k :: 0 <= i < a.dim0 && 0 <= k < b.dim1 ==> c.At(i, k) == Dot(a, b, i, k, a.dim1)
  {
    Tabulate(a.dim0, b.dim1, (i: nat, k: nat) =>
      if i < a.dim0 && k < b.dim1 then Dot(a, b, i, k, a.dim1) else 0.0)
  }

  /** c + a . b: the accumulating product. */
  function PlusProduct(c: Mat, a: Mat, b: Mat): (r: Mat)
    requires a.Valid() && b.Valid() && c.Valid() && a.dim1 == b.dim0
    requires c.dim0 == a.dim0 && c.dim1 == b.dim1
    ensures r.Valid() && r.dim0 == c.dim0 && r.dim1 == c.dim1
    ensures forall i, k :: 0 <= i < c.dim0 && 0 <= k < c.dim1 ==>
      r.At(i, k) == c.At(i, k) + Dot(a, b, i, k, a.dim1)
  {
    Tabulate(c.dim0, c.dim1, (i: nat, k: nat) =>
      if i < c.dim0 && k < c.dim1 then c.At(i, k) + Dot(a, b, i, k, a.dim1) else 0.0)
  }

  /** Accumulating onto a zero matrix is the plain product: timesMatrix is
      timesMatrixPlus after initializeToZero. */
  lemma PlusProductOfZero(a: Mat, b: Mat)
    requires a.Valid() && b.Valid() && a.dim1 == b.dim0
    ensures PlusProduct(Filled(a.dim0, b.dim1, 0.0), a, b) == Product(a, b)
  {
    Ext(PlusProduct(Filled(a.dim0, b.dim1, 0.0), a, b), Product(a, b));
  }

  /** Two matrices of one shape with the same rows are the same value. */
  lemma SameRows(a: Mat, b: Mat)
    requires a.Valid() && b.Valid() && a.dim0 == b.dim0 && a.dim1 == b.dim1
    requires a.Rows() == b.Rows()
    ensures a == b
  {
    FlattenRows(a);
    FlattenRows(b);
  }

  // ---------------------------------------------------------------------
  // Rows laid end to end

  /** The rows laid end to end: the row-major flat vector. */
  function Flatten(rs: seq<seq<real>>): seq<real>
  {
    if rs == [] then [] else Flatten(rs[..|rs| - 1]) + rs[|rs| - 1]
  }

  lemma {:induction false} FlattenLength(rs: seq<seq<real>>, w: nat)
    requires Uniform(rs, w)
    ensures |Flatten(rs)| == Area(|rs|, w)
  {
    if rs != [] {
      FlattenLength(rs[..|rs| - 1], w);
      AreaStep(|rs| - 1, w);
    }
  }

  lemma {:induction false} FlattenAppend(a: seq<seq<real>>, b: seq<seq<real>>)
    ensures Flatten(a + b) == Flatten(a) + Flatten(b)
  {
    if b == [] {
      assert a + b == a;
    } else {
      assert (a + b)[..|a + b| - 1] == a + b[..|b| - 1];
      FlattenAppend(a, b[..|b| - 1]);
    }
  }

  /** The leading n rows of a matrix, as a matrix of their own. */
  lemma PrefixRows(m: Mat, n: nat)
    requires m.Valid() && n <= m.dim0
    ensures Area(n, m.dim1) <= |m.data|
    ensures Mat(n, m.dim1, m.data[..Area(n, m.dim1)]).Valid()
    ensures Mat(n, m.dim1, m.data[..Area(n, m.dim1)]).Rows() == m.Rows()[..n]
  {
    AreaMonotone(n, m.dim0, m.dim1);
    var p := Mat(n, m.dim1, m.data[..Area(n, m.dim1)]);
    forall i | 0 <= i < n
      ensures p.Row(i) == m.Row(i)
    {
      RowBound(i, n, m.dim1);
      RowBound(i, m.dim0, m.dim1);
    }
  }

  /** getData: the flat vector of a matrix is its rows laid end to end. */
  lemma {:induction false} FlattenRows(m: Mat)
    requires m.Valid()
    ensures Flatten(m.Rows()) == m.data
    decreases m.dim0
  {
    if m.dim0 > 0 {
      var n, w := m.dim0 - 1, m.dim1;
      AreaStep(n, w);
      PrefixRows(m, n);
      FlattenRows(Mat(n, w, m.data[..Area(n, w)]));
      assert m.data == m.data[..Area(n, w)] + m.Row(n);
    }
  }

  /** The rows of the matrix built from equally long rows are those rows. */
  lemma {:induction false} RowsOfFlatten(rs: seq<seq<real>>, w: nat)
    requires Uniform(rs, w)
    ensures Mat(|rs|, w, Flatten(rs)).Valid()
    ensures Mat(|rs|, w, Flatten(rs)).Rows() == rs
  {
    FlattenLength(rs, w);
    if rs != [] {
      var n := |rs| - 1;
      var init := rs[..n];
      RowsOfFlatten(init, w);
      FlattenLength(init, w);
      AreaStep(n, w);
      var m := Mat(|rs|, w, Flatten(rs));
      PrefixRows(m, n);
      assert m.data[..Area(n, w)] == Flatten(init);
      RowBound(n, |rs|, w);
      assert m.Row(n) == rs[n];
      assert m.Rows() == m.Rows()[..n] + [m.Row(n)];
    }
  }

  /** The first p rows and the remaining rows, as slices of the flat vector. */
  lemma SliceRows(m: Mat, p: nat)
    requires m.Valid() && p <= m.dim0
    ensures Area(p, m.dim1) <= |m.data|
    ensures m.data[..Area(p, m.dim1)] == Flatten(m.Rows()[..p])
    ensures m.data[Area(p, m.dim1)..] == Flatten(m.Rows()[p..])
  {
    var rs := m.Rows();
    assert rs == rs[..p] + rs[p..];
    FlattenAppend(rs[..p], rs[p..]);
    FlattenLength(rs[..p], m.dim1);
    FlattenRows(m);
  }

  /** The row positions a row can be inserted at: rowNum -1 appends. */
  function InsertPos(rows: nat, rowNum: int): (p: nat)
    requires -1 <= rowNum <= rows
    ensures p <= rows
    ensures rowNum == -1 ==> p == rows
  {
    if rowNum == -1 then rows else rowNum
  }

  /** Splicing a row of the right width into the flat vector at row p gives
      the rows with the new row at position p. */
  lemma InsertRowSplice(m: Mat, vec: seq<real>, p: nat)
    requires m.Valid() && p <= m.dim0
    requires m.dim0 == 0 || m.dim1 == |vec|
    ensures Area(p, m.dim1) <= |m.data|
    ensures Mat(m.dim0 + 1, |vec|, m.data[..Area(p, m.dim1)] + vec + m.data[Area(p, m.dim1)..]).Valid()
    ensures Mat(m.dim0 + 1, |vec|, m.data[..Area(p, m.dim1)] + vec + m.data[Area(p, m.dim1)..]).Rows()
         == m.Rows()[..p] + [vec] + m.Rows()[p..]
  {
    var rs := m.Rows();
    var target := rs[..p] + [vec] + rs[p..];
    SliceRows(m, p);
    FlattenAppend(rs[..p] + [vec], rs[p..]);
    FlattenAppend(rs[..p], [vec]);
    assert Flatten([vec]) == vec by {
      assert [vec][..0] == [];
    }
    assert Uniform(target, |vec|);
    RowsOfFlatten(target, |vec|);
  }

  /** Each row with its last entry repeated once more (addCol). */
  ghost function RepeatLast(rs: seq<seq<real>>): (out: seq<seq<real>>)
    requires forall i :: 0 <= i < |rs| ==> |rs[i]| > 0
  {
    seq(|rs|, i requires 0 <= i < |rs| => rs[i] + [rs[i][|rs[i]| - 1]])
  }

  // ---------------------------------------------------------------------
  // Distinct rows in order of first occurrence (unique)

  /** The distinct rows of rs, each kept where it first occurs. */
  function Dedup(rs: seq<seq<real>>): (d: seq<seq<real>>)
    ensures |d| <= |rs|
  {
    if rs == [] then [] else
    var d := Dedup(rs[..|rs| - 1]);
    if rs[|rs| - 1] in d then d else d + [rs[|rs| - 1]]
  }

  /** The distinct rows are exactly the rows of rs, none repeated. */
  lemma {:induction false} DedupSpec(rs: seq<seq<real>>)
    ensures forall x :: x in Dedup(rs) <==> x in rs
    ensures forall a, b :: 0 <= a < b < |Dedup(rs)| ==> Dedup(rs)[a] != Dedup(rs)[b]
  {
    if rs != [] {
      var init := rs[..|rs| - 1];
      DedupSpec(init);
      assert rs == init + [rs[|rs| - 1]];
    }
  }

  /** Deduplicating more rows only appends: the distinct rows of a prefix
      come first and keep their positions. */
  lemma {:induction false} DedupPrefix(rs: seq<seq<real>>, n: nat)
    requires n <= |rs|
    ensures Dedup(rs[..n]) <= Dedup(rs)
  {
    if n < |rs| {
      var init := rs[..|rs| - 1];
      assert init[..n] == rs[..n];
      DedupPrefix(init, n);
      assert Dedup(init) <= Dedup(rs);
    } else {
      assert rs[..n] == rs;
    }
  }

  /** Rows that are already distinct are kept as they are. */
  lemma {:induction false} DedupDistinct(rs: seq<seq<real>>)
    requires forall a, b :: 0 <= a < b < |rs| ==> rs[a] != rs[b]
    ensures Dedup(rs) == rs
  {
    if rs != [] {
      var init := rs[..|rs| - 1];
      DedupDistinct(init);
      assert rs[|rs| - 1] !in init;
      assert rs == init + [rs[|rs| - 1]];
    }
  }

  /** unique is idempotent: deduplicating twice changes nothing more. */
  lemma DedupIdempotent(rs: seq<seq<real>>)
    ensures Dedup(Dedup(rs)) == Dedup(rs)
  {
    DedupSpec(rs);
    DedupDistinct(Dedup(rs));
  }

  /** Deduplicating one more row: it is appended only when it is new. */
  lemma DedupSnoc(rs: seq<seq<real>>, x: seq<real>)
    ensures Dedup(rs + [x]) == if x in Dedup(rs) then Dedup(rs) else Dedup(rs) + [x]
  {
    assert (rs + [x])[..|rs|] == rs;
  }

  /** The worked case of unique: rows a, b, a, c with c new give the three
      distinct rows a, b, c. */
  lemma DedupExample(a: seq<real>, b: seq<real>, c: seq<real>)
    requires a != b && c != a && c != b
    ensures Dedup([a, b, a, c]) == [a, b, c]
  {
    DedupDistinct([a, b]);
    DedupSnoc([a, b], a);
    assert [a, b] + [a] == [a, b, a];
    assert c !in [a, b];
    DedupSnoc([a, b, a], c);
    assert [a, b, a] + [c] == [a, b, a, c];
  }

  // ---------------------------------------------------------------------
  // Products with a vector

  /** The sum of m[i][j] * v[j] over the first n columns j. */
  function RowDot(m: Mat, v: seq<real>, i: nat, n: nat): real
    requires m.Valid() && i < m.dim0 && n <= m.dim1 && n <= |v|
  {
    if n == 0 then 0.0 else RowDot(m, v, i, n - 1) + Scale(m.At(i, n - 1), v[n - 1])
  }

  /** A vector as a one-column matrix. */
  function Column(v: seq<real>): (c: Mat)
    ensures c.Valid() && c.dim0 == |v| && c.dim1 == 1
    ensures forall j :: 0 <= j < |v| ==> c.At(j, 0) == v[j]
  {
    Tabulate(|v|, 1, (j: nat, _) => if j < |v| then v[j] else 0.0)
  }

  /** timesVector agrees with timesMatrix against the one-column matrix of the vector. */
  lemma {:induction false} RowDotIsProduct(m: Mat, v: seq<real>, i: nat, n: nat)
    requires m.Valid() && |v| == m.dim1 && i < m.dim0 && n <= m.dim1
    ensures RowDot(m, v, i, n) == Dot(m, Column(v), i, 0, n)
  {
    if n > 0 {
      var c := Column(v);
      RowDotIsProduct(m, v, i, n - 1);
      assert c.At(n - 1, 0) == v[n - 1];
      assert Dot(m, c, i, 0, n) == Dot(m, c, i, 0, n - 1) + Scale(m.At(i, n - 1), v[n - 1]);
    }
  }

  /** A matrix filled with v has the constant flat vector. */
  lemma FilledData(rows: nat, cols: nat, v: real)
    ensures Filled(rows, cols, v).data == seq(Area(rows, cols), _ => v)
  {
    var f := Filled(rows, cols, v);
    forall k | 0 <= k < Area(rows, cols)
      ensures f.data[k] == v
    {
      Split(k, rows, cols);
      assert f.At(k / cols, k % cols) == v;
    }
  }

  /** Entrywise this + a * A, stated on the flat storage, is the same sum at
      every (row, column). */
  lemma ScaledSumAt(m0: Mat, am: Mat, a: real, m1: Mat)
    requires m0.Valid() && am.Valid() && m0.dim0 == am.dim0 && m0.dim1 == am.dim1
    requires m1.dim0 == m0.dim0 && m1.dim1 == m0.dim1 && |m1.data| == |m0.data|
    requires forall k :: 0 <= k < |m1.data| ==>
      m1.data[k] == m0.data[k] + (if k < Area(m0.dim0, m0.dim1) then Scale(a, am.data[k]) else 0.0)
    ensures m1.Valid()
    ensures forall i, j :: 0 <= i < m1.dim0 && 0 <= j < m1.dim1 ==>
      m1.At(i, j) == m0.At(i, j) + a * am.At(i, j)
  {
    forall i, j | 0 <= i < m1.dim0 && 0 <= j < m1.dim1
      ensures m1.At(i, j) == m0.At(i, j) + a * am.At(i, j)
    {
      RowMajorBound(i, j, m1.dim0, m1.dim1);
    }
  }

  // The state of the product loops once rows before i hold the full sum and
  // row i holds the terms below j.
  ghost function AccState(b0: Mat, m: Mat, a: Mat, i: nat, j: nat): (s: Mat)
    requires b0.Valid() && m.Valid() && a.Valid() && m.dim1 == a.dim0
    requires b0.dim0 == m.dim0 && b0.dim1 == a.dim1 && j <= m.dim1
    ensures s.Valid() && s.dim0 == b0.dim0 && s.dim1 == b0.dim1
  {
    Tabulate(b0.dim0, b0.dim1, (r: nat, c: nat) =>
      if r < b0.dim0 && c < b0.dim1 then
        b0.At(r, c) +
          (if r < i then Dot(m, a, r, c, m.dim1) else if r == i then Dot(m, a, r, c, j) else 0.0)
      else 0.0)
  }

  lemma AccStateStart(b0: Mat, m: Mat, a: Mat)
    requires b0.Valid() && m.Valid() && a.Valid() && m.dim1 == a.dim0
    requires b0.dim0 == m.dim0 && b0.dim1 == a.dim1
    ensures AccState(b0, m, a, 0, 0) == b0
  {
    Ext(AccState(b0, m, a, 0, 0), b0);
  }

  /** One pass of the innermost loop adds m[i][j] * a[j][c] to every entry
      (i, c) of row i and leaves the other rows alone. */
  lemma AccStateRow(b0: Mat, m: Mat, a: Mat, i: nat, j: nat, x: real, before: seq<real>, after: seq<real>)
    requires b0.Valid() && m.Valid() && a.Valid() && m.dim1 == a.dim0
    requires b0.dim0 == m.dim0 && b0.dim1 == a.dim1
    requires i < m.dim0 && j < m.dim1 && x == m.At(i, j)
    requires before == AccState(b0, m, a, i, j).data && |after| == |before|
    requires forall q :: 0 <= q < |after| ==>
      after[q] == before[q] +
        (if Area(i, a.dim1) <= q < Area(i, a.dim1) + a.dim1
         then Scale(x, a.At(j, q - Area(i, a.dim1))) else 0.0)
    ensures after == AccState(b0, m, a, i, j + 1).data
  {
    var s, t := AccState(b0, m, a, i, j), AccState(b0, m, a, i, j + 1);
    var p := a.dim1;
    forall q | 0 <= q < |after|
      ensures after[q] == t.data[q]
    {
      Split(q, b0.dim0, p);
      var r, c := q / p, q % p;
      assert s.At(r, c) == s.data[q] && t.At(r, c) == t.data[q];
      if r == i {
        assert q - Area(i, p) == c;
      } else if r < i {
        AreaMonotone(r + 1, i, p);
        AreaStep(r, p);
      } else {
        AreaMonotone(i + 1, r, p);
        AreaStep(i, p);
      }
    }
  }

  lemma AccStateNextRow(b0: Mat, m: Mat, a: Mat, i: nat)
    requires b0.Valid() && m.Valid() && a.Valid() && m.dim1 == a.dim0
    requires b0.dim0 == m.dim0 && b0.dim1 == a.dim1
    ensures AccState(b0, m, a, i, m.dim1) == AccState(b0, m, a, i + 1, 0)
  {
    Ext(AccState(b0, m, a, i, m.dim1), AccState(b0, m, a, i + 1, 0));
  }

  lemma AccStateEnd(b0: Mat, m: Mat, a: Mat)
    requires b0.Valid() && m.Valid() && a.Valid() && m.dim1 == a.dim0
    requires b0.dim0 == m.dim0 && b0.dim1 == a.dim1
    ensures AccState(b0, m, a, m.dim0, 0) == PlusProduct(b0, m, a)
  {
    Ext(AccState(b0, m, a, m.dim0, 0), PlusProduct(b0, m, a));
  }

  lemma FlattenSnoc(init: seq<seq<real>>, x: seq<real>)
    ensures Flatten(init + [x]) == Flatten(init) + x
  {
    assert (init + [x])[..|init|] == init;
  }

  lemma FlattenCons(x: seq<real>, rest: seq<seq<real>>)
    ensures Flatten([x] + rest) == x + Flatten(rest)
  {
    FlattenAppend([x], rest);
    FlattenSnoc([], x);
    assert [] + [x] == [x];
  }

  lemma RepeatLastSnoc(rs: seq<seq<real>>, w: nat, row: nat)
    requires Uniform(rs, w) && w > 0 && row < |rs|
    ensures Uniform(RepeatLast(rs[..row]), w + 1)
    ensures RepeatLast(rs[..row + 1]) == RepeatLast(rs[..row]) + [rs[row] + [rs[row][w - 1]]]
  {
  }

  /** vector::insert(it, it - 1, it): the entry before position it is copied
      in at it, shifting the tail one place right. */
  function DuplicateBefore(d: seq<real>, it: nat): (r: seq<real>)
    requires 1 <= it <= |d|
    ensures |r| == |d| + 1 && r[it] == d[it - 1]
  {
    d[..it] + [d[it - 1]] + d[it..]
  }

  /** The flat vector while addCol is at row `row`: rows before it widened,
      the rest as they were. */
  ghost function AddColData(rs: seq<seq<real>>, w: nat, row: nat): seq<real>
    requires Uniform(rs, w) && (w > 0 || |rs| == 0) && row <= |rs|
  {
    Flatten(RepeatLast(rs[..row])) + Flatten(rs[row..])
  }

  lemma RepeatLastStart(m: Mat)
    requires m.Valid() && (m.dim1 >= 1 || m.dim0 == 0)
    ensures m.data == AddColData(m.Rows(), m.dim1, 0)
  {
    FlattenRows(m);
    assert m.Rows()[..0] == [];
    assert m.Rows()[0..] == m.Rows();
  }

  lemma RepeatLastEnd(rs: seq<seq<real>>, w: nat, data: seq<real>)
    requires Uniform(rs, w) && (w > 0 || |rs| == 0)
    requires data == AddColData(rs, w, |rs|)
    ensures Mat(|rs|, w + 1, data).Valid()
    ensures Mat(|rs|, w + 1, data).Rows() == RepeatLast(rs)
  {
    assert rs[..|rs|] == rs;
    assert rs[|rs|..] == [];
    var out := RepeatLast(rs);
    assert data == Flatten(out) + [];
    assert |out| == |rs|;
    assert Uniform(out, w + 1);
    RowsOfFlatten(out, w + 1);
    assert Mat(|rs|, w + 1, data) == Mat(|out|, w + 1, Flatten(out));
  }

  /** One pass of the addCol loop: the copy of the last entry of row `row`
      is inserted right after it. */
  lemma RepeatLastStep(rs: seq<seq<real>>, w: nat, row: nat, data: seq<real>)
    requires Uniform(rs, w) && w > 0 && row < |rs|
    requires data == AddColData(rs, w, row)
    ensures 1 <= Area(row + 1, w + 1) - 1 <= |data|
    ensures DuplicateBefore(data, Area(row + 1, w + 1) - 1) == AddColData(rs, w, row + 1)
  {
    var done := Flatten(RepeatLast(rs[..row]));
    var x := rs[row];
    var rest := Flatten(rs[row + 1..]);
    RepeatLastSnoc(rs, w, row);
    FlattenLength(RepeatLast(rs[..row]), w + 1);
    AreaStep(row, w + 1);
    assert rs[row..] == [x] + rs[row + 1..];
    FlattenCons(x, rs[row + 1..]);
    FlattenSnoc(RepeatLast(rs[..row]), x + [x[w - 1]]);
    var it := Area(row + 1, w + 1) - 1;
    assert |done| + w == it;
    assert data == done + x + rest;
    assert data[..it] == done + x;
    assert data[it - 1] == x[w - 1];
    assert data[it..] == rest;
    assert done + (x + [x[w - 1]]) == done + x + [x[w - 1]];
    assert AddColData(rs, w, row + 1) == done + (x + [x[w - 1]]) + rest;
  }

  /** The rows of rs listed by ind, in that order (getRows). */
  ghost function Select(rs: seq<seq<real>>, ind: seq<int>): (out: seq<seq<real>>)
    requires forall k :: 0 <= k < |ind| ==> 0 <= ind[k] < |rs|
  {
    seq(|ind|, k requires 0 <= k < |ind| => rs[ind[k]])
  }

  /** The first dim1 values behind &data[i*dim1] are row i. */
  lemma RowFromPointer(m: Mat, i: nat)
    requires m.Valid() && i < m.dim0
    ensures Area(i, m.dim1) <= |m.data| && m.dim1 <= |m.data[Area(i, m.dim1)..]|
    ensures m.data[Area(i, m.dim1)..][..m.dim1] == m.Rows()[i]
  {
    RowBound(i, m.dim0, m.dim1);
  }

  /** The labels unique has assigned once rows before i are processed: each
      such row is found at its label in d, later rows still carry -1. */
  ghost predicate Labelled(rs: seq<seq<real>>, i: nat, d: seq<seq<real>>, iRow: seq<int>)
  {
    && |iRow| == |rs|
    && (forall i' :: 0 <= i' < i && i' < |rs| ==> 0 <= iRow[i'] < |d| && d[iRow[i']] == rs[i'])
    && (forall i' :: i <= i' < |rs| ==> iRow[i'] == -1)
  }

  lemma LabelNew(rs: seq<seq<real>>, i: nat, d: seq<seq<real>>, iRow: seq<int>)
    requires i < |rs| && d == Dedup(rs[..i]) && Labelled(rs, i, d, iRow)
    requires rs[i] !in rs[..i]
    ensures Dedup(rs[..i + 1]) == d + [rs[i]]
    ensures Labelled(rs, i + 1, d + [rs[i]], iRow[i := |d|])
  {
    DedupSpec(rs[..i]);
    assert rs[..i + 1][..i] == rs[..i];
  }

  lemma LabelRepeated(rs: seq<seq<real>>, i: nat, d: seq<seq<real>>, iRow: seq<int>, j: nat)
    requires i < |rs| && d == Dedup(rs[..i]) && Labelled(rs, i, d, iRow)
    requires j < i && rs[j] == rs[i]
    ensures 0 <= iRow[j] < |d|
    ensures Dedup(rs[..i + 1]) == d
    ensures Labelled(rs, i + 1, d, iRow[i := iRow[j]])
  {
    assert rs[..i + 1][..i] == rs[..i];
    assert d[iRow[j]] == rs[i];
  }

  // ---------------------------------------------------------------------
  // The matrix object

  class Matrix {
    var dim0: nat
    var dim1: nat
    var data: seq<real>

    /** The current value of the matrix. */
    function Value(): Mat
      reads this
    {
      Mat(dim0, dim1, data)
    }

    ghost predicate Valid()
      reads this
    {
      Value().Valid()
    }

    /** The empty 0 x 0 matrix. */
    constructor ()
      ensures Valid() && Value() == Mat(0, 0, [])
    {
      dim0 := 0;
      dim1 := 0;
      data := [];
    }

    /** A matrix of the given shape, every entry zero. */
    constructor Sized(inDim0: nat, inDim1: nat)
      ensures Valid() && Value() == Filled(inDim0, inDim1, 0.0)
    {
      dim0 := inDim0;
      dim1 := inDim1;
      data := seq(Area(inDim0, inDim1), _ => 0.0);
      new;
      FilledData(inDim0, inDim1, 0.0);
    }

    /** The copy constructor. */
    constructor Copy(other: Matrix)
      ensures Value() == other.Value()
    {
      dim0 := other.dim0;
      dim1 := other.dim1;
      data := other.data;
    }

    /** operator=: this takes other's shape and entries. */
    method Assign(other: Matrix)
      modifies this
      ensures Value() == old(other.Value())
    {
      dim0 := other.dim0;
      dim1 := other.dim1;
      data := other.data;
    }

    /** setup: new shape; the flat vector is resized, keeping its leading entries. */
    method Setup(inDim0: nat, inDim1: nat)
      modifies this
      ensures Valid() && Value() == old(Value()).Resized(inDim0, inDim1)
    {
      dim0 := inDim0;
      dim1 := inDim1;
      data := Resize(data, Area(inDim0, inDim1), 0.0);
    }

    /** operator[]: the flat position where row inRow starts; a row outside
        0 .. dim0-1 is fatal. */
    function RowStart(inRow: int): (r: Option<nat>)
      requires Valid()
      reads this
      ensures r.Some? <==> 0 <= inRow < dim0
      ensures r.Some? ==> r.value + dim1 <= |data|
      ensures r.Some? ==> forall j :: 0 <= j < dim1 ==> data[r.value + j] == Value().At(inRow, j)
    {
      if inRow < dim0 && inRow >= 0 then
        RowBound(inRow, dim0, dim1);
        Some(Area(inRow, dim1))
      else None
    }

    /** operator(): entry (i, j); an index outside the matrix is fatal. */
    function Get(i: int, j: int): (r: Option<real>)
      requires Valid()
      reads this
      ensures r.Some? <==> 0 <= i < dim0 && 0 <= j < dim1
      ensures r.Some? ==> r.value == Value().At(i, j)
    {
      if i < dim0 && i >= 0 && j < dim1 && j >= 0 then
        RowMajorBound(i, j, dim0, dim1);
        Some(data[Area(i, dim1) + j])
      else None
    }

    /** Writing through operator(): entry (i, j) becomes v. */
    method Set(i: int, j: int, v: real) returns (st: Status)
      requires Valid()
      modifies this
      ensures st.Fatal? <==> !(0 <= i < old(dim0) && 0 <= j < old(dim1))
      ensures st.Fatal? ==> Value() == old(Value())
      ensures st.Done? ==> Valid() && Value() == old(Value()).Set(i, j, v)
    {
      if i < dim0 && i >= 0 && j < dim1 && j >= 0 {
        Put(i, j, v);
        return Done;
      }
      return Fatal("Attempted out-of-bounds access in matrix.");
    }

    /** The unchecked store data[i*dim1+j] = v the loops perform. */
    method Put(i: nat, j: nat, v: real)
      requires Valid() && i < dim0 && j < dim1
      modifies this
      ensures Valid() && Value() == old(Value()).Set(i, j, v)
    {
      RowMajorBound(i, j, dim0, dim1);
      data := data[Area(i, dim1) + j := v];
    }

    /** initializeToValue: every entry becomes val. */
    method InitializeToValue(val: real)
      requires Valid()
      modifies this
      ensures Valid() && Value() == Filled(old(dim0), old(dim1), val)
    {
      ghost var m0 := Value();
      var idim := 0;
      while idim < dim0
        invariant 0 <= idim <= dim0
        invariant Valid() && dim0 == m0.dim0 && dim1 == m0.dim1
        invariant forall r, c :: 0 <= r < dim0 && 0 <= c < dim1 ==>
          Value().At(r, c) == if r < idim then val else m0.At(r, c)
      {
        var jdim := 0;
        while jdim < dim1
          invariant 0 <= jdim <= dim1
          invariant Valid() && dim0 == m0.dim0 && dim1 == m0.dim1
          invariant forall r, c :: 0 <= r < dim0 && 0 <= c < dim1 ==>
            Value().At(r, c) == if r < idim || (r == idim && c < jdim) then val else m0.At(r, c)
        {
          Put(idim, jdim, val);
          jdim := jdim + 1;
        }
        idim := idim + 1;
      }
      Ext(Value(), Filled(dim0, dim1, val));
    }

    /** initializeToZero: every entry becomes 0. */
    method InitializeToZero()
      requires Valid()
      modifies this
      ensures Valid() && Value() == Filled(old(dim0), old(dim1), 0.0)
    {
      InitializeToValue(0.0);
    }

    /** addMatrix: this += a * A entrywise; a shape mismatch is fatal. A may
        be this matrix itself: each entry is read just before it is written,
        so every entry then becomes (1 + a) times its old value. */
    method AddMatrix(A: Matrix, a: real) returns (st: Status)
      requires Valid() && A.Valid()
      modifies this
      ensures st.Fatal? <==> old(A.dim0) != old(dim0) || old(A.dim1) != old(dim1)
      ensures st.Fatal? ==> Value() == old(Value())
      ensures st.Done? ==> Valid() && dim0 == old(dim0) && dim1 == old(dim1)
      ensures st.Done? ==> forall i, j :: 0 <= i < dim0 && 0 <= j < dim1 ==>
        Value().At(i, j) == old(Value()).At(i, j) + a * old(A.Value()).At(i, j)
    {
      if A.dim0 != dim0 || A.dim1 != dim1 {
        return Fatal("Incompatible matrix sizes for addMatrix.");
      }
      ghost var m0, am := Value(), A.Value();
      var i := 0;
      while i < dim0
        invariant 0 <= i <= dim0
        invariant dim0 == m0.dim0 && dim1 == m0.dim1 && |data| == |m0.data|
        invariant A != this ==> A.data == am.data
        invariant forall k :: 0 <= k < |data| ==>
          data[k] == m0.data[k] + (if k < Area(i, dim1) then Scale(a, am.data[k]) else 0.0)
      {
        var row := Area(i, dim1);
        RowBound(i, dim0, dim1);
        var j := 0;
        while j < dim1
          invariant 0 <= j <= dim1
          invariant dim0 == m0.dim0 && dim1 == m0.dim1 && |data| == |m0.data|
          invariant A != this ==> A.data == am.data
          invariant forall k :: 0 <= k < |data| ==>
            data[k] == m0.data[k] + (if k < row + j then Scale(a, am.data[k]) else 0.0)
        {
          assert A.data[row + j] == am.data[row + j];
          data := data[row + j := data[row + j] + Scale(a, A.data[row + j])];
          j := j + 1;
        }
        i := i + 1;
      }
      ScaledSumAt(m0, am, a, Value());
      return Done;
    }

    /** timesMatrix: B = this . A. B is reshaped when its shape differs; an
        inner-dimension mismatch is fatal. */
    method TimesMatrix(A: Matrix, B: Matrix) returns (st: Status)
      requires Valid() && A.Valid() && B.Valid()
      requires B != this && B != A
      modifies B
      ensures st.Fatal? <==> A.dim0 != dim1
      ensures st.Fatal? ==> B.Value() == old(B.Value())
      ensures st.Done? ==> B.Valid() && B.Value() == Product(Value(), A.Value())
    {
      if A.dim0 != dim1 {
        return Fatal("Incompatible matrix sizes in matrix multiplication!");
      }
      if B.dim0 != dim0 || B.dim1 != A.dim1 {
        B.Setup(dim0, A.dim1);
      }
      B.InitializeToZero();
      Accumulate(A, B);
      PlusProductOfZero(Value(), A.Value());
      return Done;
    }

    /** timesMatrixPlus: B += this . A, B first reshaped (keeping its leading
        entries) when its shape differs. */
    method TimesMatrixPlus(A: Matrix, B: Matrix) returns (st: Status)
      requires Valid() && A.Valid() && B.Valid()
      requires B != this && B != A
      modifies B
      ensures st.Fatal? <==> A.dim0 != dim1
      ensures st.Fatal? ==> B.Value() == old(B.Value())
      ensures st.Done? ==> Ok(B.Value()) == TimesPlus(Value(), A.Value(), old(B.Value()))
    {
      if A.dim0 != dim1 {
        return Fatal("Incompatible matrix sizes in matrix multiplication!");
      }
      if B.dim0 != dim0 || B.dim1 != A.dim1 {
        B.Setup(dim0, A.dim1);
      }
      Accumulate(A, B);
      return Done;
    }

    /** The triple loop B[i][k] += data[i*dim1+j] * A[j][k] shared by both products. */
    method Accumulate(A: Matrix, B: Matrix)
      requires Valid() && A.Valid() && B.Valid()
      requires B != this && B != A
      requires A.dim0 == dim1 && B.dim0 == dim0 && B.dim1 == A.dim1
      modifies B
      ensures B.Valid() && B.Value() == PlusProduct(old(B.Value()), Value(), A.Value())
    {
      ghost var b0 := B.Value();
      AccStateStart(b0, Value(), A.Value());
      var i := 0;
      while i < dim0
        invariant 0 <= i <= dim0
        invariant B.dim0 == dim0 && B.dim1 == A.dim1 && B.data == AccState(b0, Value(), A.Value(), i, 0).data
      {
        AccumulateRow(A, B, i, b0);
        i := i + 1;
      }
      AccStateEnd(b0, Value(), A.Value());
    }

    /** The middle product loop: row i of B gains row i of this . A. */
    method AccumulateRow(A: Matrix, B: Matrix, i: nat, ghost b0: Mat)
      requires Valid() && A.Valid() && B != this && B != A
      requires A.dim0 == dim1 && B.dim0 == dim0 && B.dim1 == A.dim1 && i < dim0
      requires b0.Valid() && b0.dim0 == dim0 && b0.dim1 == A.dim1
      requires B.data == AccState(b0, Value(), A.Value(), i, 0).data
      modifies B
      ensures B.dim0 == dim0 && B.dim1 == A.dim1
      ensures B.data == AccState(b0, Value(), A.Value(), i + 1, 0).data
    {
      ghost var m := Value();
      ghost var am := A.Value();
      var j := 0;
      while j < dim1
        invariant 0 <= j <= dim1
        invariant B.dim0 == dim0 && B.dim1 == A.dim1 && B.data == AccState(b0, m, am, i, j).data
      {
        RowMajorBound(i, j, dim0, dim1);
        var x := data[Area(i, dim1) + j];
        ghost var before := B.data;
        B.AddScaledRow(x, A, j, i);
        AccStateRow(b0, m, am, i, j, x, before, B.data);
        j := j + 1;
      }
      AccStateNextRow(b0, m, am, i);
    }

    /** The innermost product loop: row i of this gains x times row j of A. */
    method AddScaledRow(x: real, A: Matrix, j: nat, i: nat)
      requires Valid() && A.Valid() && A != this
      requires A.dim1 == dim1 && j < A.dim0 && i < dim0
      modifies this
      ensures dim0 == old(dim0) && dim1 == old(dim1) && |data| == |old(data)|
      ensures forall q :: 0 <= q < |data| ==>
        data[q] == old(data[q]) +
          (if Area(i, dim1) <= q < Area(i, dim1) + dim1 then Scale(x, A.Value().At(j, q - Area(i, dim1))) else 0.0)
    {
      RowBound(i, dim0, dim1);
      ghost var av := A.Value();
      var row := Area(i, dim1);
      var k := 0;
      while k < dim1
        invariant 0 <= k <= dim1
        invariant dim0 == old(dim0) && dim1 == old(dim1) && |data| == |old(data)|
        invariant forall q :: 0 <= q < |data| ==>
          data[q] == old(data[q]) +
            (if row <= q < row + k then Scale(x, av.At(j, q - row)) else 0.0)
      {
        RowMajorBound(j, k, A.dim0, dim1);
        data := data[row + k := data[row + k] + Scale(x, A.data[Area(j, dim1) + k])];
        k := k + 1;
      }
    }

    /** timesVector: B is resized to dim1 entries and its first dim0 entries
        become the row products with A. */
    method TimesVector(A: seq<real>, B: seq<real>) returns (r: seq<real>)
      requires Valid() && |A| >= dim1 && dim0 <= dim1
      ensures |r| == dim1
      ensures forall i :: 0 <= i < dim0 ==> r[i] == RowDot(Value(), A, i, dim1)
      ensures forall i :: dim0 <= i < dim1 ==> r[i] == if i < |B| then B[i] else 0.0
    {
      r := B;
      if |r| != dim1 {
        r := Resize(r, dim1, 0.0);
      }
      var i := 0;
      while i < dim0
        invariant 0 <= i <= dim0
        invariant |r| == dim1
        invariant forall i' :: 0 <= i' < i ==> r[i'] == RowDot(Value(), A, i', dim1)
        invariant forall i' :: i <= i' < dim1 ==> r[i'] == if i' < |B| then B[i'] else 0.0
      {
        r := r[i := 0.0];
        var j := 0;
        while j < dim1
          invariant 0 <= j <= dim1
          invariant |r| == dim1
          invariant r[i] == RowDot(Value(), A, i, j)
          invariant forall i' :: 0 <= i' < i ==> r[i'] == RowDot(Value(), A, i', dim1)
          invariant forall i' :: i < i' < dim1 ==> r[i'] == if i' < |B| then B[i'] else 0.0
        {
          RowMajorBound(i, j, dim0, dim1);
          r := r[i := r[i] + Scale(data[Area(i, dim1) + j], A[j])];
          j := j + 1;
        }
        i := i + 1;
      }
    }

    /** insertRow(vec, rowNum): vec becomes row rowNum (rowNum -1 appends); a
        row whose length differs from a nonzero dim1 is fatal. */
    method InsertRow(vec: seq<real>, rowNum: int) returns (st: Status)
      requires Valid() && -1 <= rowNum <= dim0
      requires dim1 == 0 && dim0 > 0 ==> |vec| == 0
      modifies this
      ensures st.Fatal? <==> old(dim1) != 0 && |vec| != old(dim1)
      ensures st.Fatal? ==> Value() == old(Value())
      ensures st.Done? ==> Valid() && dim0 == old(dim0) + 1 && dim1 == |vec|
      ensures st.Done? ==> (Value().Rows() ==
        old(Value().Rows())[..InsertPos(old(dim0), rowNum)] + [vec] + old(Value().Rows())[InsertPos(old(dim0), rowNum)..])
      ensures st.Done? && rowNum == -1 ==> Value().Rows() == old(Value().Rows()) + [vec]
    {
      if dim1 != 0 && |vec| != dim1 {
        return Fatal("Attempting to assign row of wrong size to matrix.");
      }
      ghost var m0 := Value();
      ghost var p := InsertPos(dim0, rowNum);
      InsertRowSplice(m0, vec, p);
      if rowNum == -1 || rowNum == dim0 {
        assert m0.data[..Area(p, dim1)] == data && m0.data[Area(p, dim1)..] == [];
        data := data + vec;
      } else {
        data := data[..Area(rowNum, dim1)] + vec + data[Area(rowNum, dim1)..];
      }
      if dim1 == 0 {
        dim1 := |vec|;
      }
      dim0 := dim0 + 1;
      assert Value() == Mat(m0.dim0 + 1, |vec|, m0.data[..Area(p, m0.dim1)] + vec + m0.data[Area(p, m0.dim1)..]);
      assert m0.Rows()[..m0.dim0] == m0.Rows() && m0.Rows()[m0.dim0..] == [];
      return Done;
    }

    /** insertRow(vec, rowNum, length): the row is the first length values behind vec. */
    method InsertRowFrom(vec: seq<real>, rowNum: int, length: nat) returns (st: Status)
      requires Valid() && -1 <= rowNum <= dim0 && length <= |vec|
      requires dim1 == 0 && dim0 > 0 ==> length == 0
      modifies this
      ensures st.Fatal? <==> old(dim1) != 0 && length != old(dim1)
      ensures st.Fatal? ==> Value() == old(Value())
      ensures st.Done? ==> Valid() && dim0 == old(dim0) + 1 && dim1 == length
      ensures st.Done? ==> (Value().Rows() ==
        old(Value().Rows())[..InsertPos(old(dim0), rowNum)] + [vec[..length]] + old(Value().Rows())[InsertPos(old(dim0), rowNum)..])
      ensures st.Done? && rowNum == -1 ==> Value().Rows() == old(Value().Rows()) + [vec[..length]]
    {
      st := InsertRow(vec[..length], rowNum);
    }

    /** addCol: a new last column, a copy of the old last column. */
    method AddCol()
      requires Valid() && (dim1 >= 1 || dim0 == 0)
      modifies this
      ensures Valid() && dim0 == old(dim0) && dim1 == old(dim1) + 1
      ensures Value().Rows() == RepeatLast(old(Value().Rows()))
    {
      ghost var rs := Value().Rows();
      RepeatLastStart(Value());
      WidenRows(rs);
      RepeatLastEnd(rs, dim1, data);
      dim1 := dim1 + 1;
    }

    /** The row loop of addCol: every row gets its last entry repeated. */
    method WidenRows(ghost rs: seq<seq<real>>)
      requires Uniform(rs, dim1) && (dim1 > 0 || |rs| == 0) && dim0 == |rs|
      requires data == AddColData(rs, dim1, 0)
      modifies this
      ensures dim0 == old(dim0) && dim1 == old(dim1)
      ensures data == AddColData(rs, dim1, |rs|)
    {
      var row := 0;
      while row < dim0
        invariant 0 <= row <= dim0 && dim0 == |rs| && dim1 == old(dim1)
        invariant data == AddColData(rs, dim1, row)
      {
        WidenRow(row, rs);
        row := row + 1;
      }
    }

    /** One pass of the addCol loop: the last entry of row `row` is copied in
        right after it. */
    method WidenRow(row: nat, ghost rs: seq<seq<real>>)
      requires Uniform(rs, dim1) && dim1 > 0 && row < |rs|
      requires data == AddColData(rs, dim1, row)
      modifies this
      ensures dim0 == old(dim0) && dim1 == old(dim1)
      ensures data == AddColData(rs, dim1, row + 1)
    {
      RepeatLastStep(rs, dim1, row, data);
      data := DuplicateBefore(data, Area(row + 1, dim1 + 1) - 1);
    }

    /** getRow: a copy of row `row`. */
    function GetRow(row: nat): (r: seq<real>)
      requires Valid() && row < dim0
      reads this
      ensures r == Value().Rows()[row]
      ensures forall j :: 0 <= j < dim1 ==> r[j] == Get(row, j).value
    {
      Value().Row(row)
    }

    /** getRows: a new matrix of the listed rows, in the listed order. */
    method GetRows(ind: seq<int>) returns (out: Matrix)
      requires Valid()
      requires forall k :: 0 <= k < |ind| ==> 0 <= ind[k] < dim0
      ensures fresh(out) && out.Valid()
      ensures out.dim1 == if |ind| == 0 then 0 else dim1
      ensures out.Value().Rows() == Select(Value().Rows(), ind)
    {
      ghost var rs := Value().Rows();
      out := new Matrix();
      var k := 0;
      while k < |ind|
        invariant 0 <= k <= |ind|
        invariant fresh(out) && out.Valid()
        invariant out.dim1 == if k == 0 then 0 else dim1
        invariant out.Value().Rows() == Select(rs, ind[..k])
      {
        var i := ind[k];
        RowBound(i, dim0, dim1);
        assert data[Area(i, dim1)..][..dim1] == GetRow(i);
        var st := out.InsertRowFrom(data[Area(i, dim1)..], -1, dim1);
        assert Select(rs, ind[..k + 1]) == Select(rs, ind[..k]) + [rs[ind[k]]];
        k := k + 1;
      }
      assert ind[..k] == ind;
    }

    /** getCol: the entries of column col, top to bottom. */
    method GetCol(col: int) returns (out: seq<real>)
      requires Valid() && (dim0 == 0 || 0 <= col < dim1)
      ensures |out| == dim0
      ensures forall i :: 0 <= i < dim0 ==> out[i] == Value().At(i, col)
    {
      out := [];
      var i := 0;
      while i < dim0
        invariant 0 <= i <= dim0 && |out| == i
        invariant forall i' :: 0 <= i' < i ==> out[i'] == Value().At(i', col)
      {
        RowMajorBound(i, col, dim0, dim1);
        out := out + [data[Area(i, dim1) + col]];
        i := i + 1;
      }
    }

    /** unique: out receives the distinct rows in order of first occurrence,
        and iRow[i] is the row of out equal to row i. */
    method Unique(out: Matrix) returns (iRow: seq<int>)
      requires Valid() && out != this
      modifies out
      ensures out.Valid()
      ensures out.Value().Rows() == Dedup(Value().Rows())
      ensures |iRow| == dim0
      ensures forall i :: 0 <= i < dim0 ==>
        0 <= iRow[i] < out.dim0 && out.Value().Rows()[iRow[i]] == Value().Rows()[i]
    {
      out.Setup(0, 0);
      ghost var m0 := Value();
      ghost var rs := m0.Rows();
      iRow := seq(dim0, _ => -1);
      var i := 0;
      while i < dim0
        invariant 0 <= i <= dim0
        invariant Value() == m0
        invariant out.Valid() && out.Value().Rows() == Dedup(rs[..i])
        invariant out.dim1 == if i == 0 then 0 else dim1
        invariant Labelled(rs, i, out.Value().Rows(), iRow)
      {
        iRow := UniqueRow(out, i, iRow);
        i := i + 1;
      }
      assert rs[..i] == rs;
      assert |out.Value().Rows()| == out.dim0;
      assert Labelled(rs, dim0, out.Value().Rows(), iRow);
    }

    /** One pass of the unique loop: row i is labelled with its earlier copy,
        or appended to out and labelled with its new position. */
    method UniqueRow(out: Matrix, i: nat, iRow: seq<int>) returns (next: seq<int>)
      requires Valid() && out != this && i < dim0
      requires out.Valid() && out.Value().Rows() == Dedup(Value().Rows()[..i])
      requires out.dim1 == if i == 0 then 0 else dim1
      requires Labelled(Value().Rows(), i, out.Value().Rows(), iRow)
      modifies out
      ensures out.Valid() && out.Value().Rows() == Dedup(Value().Rows()[..i + 1])
      ensures out.dim1 == dim1
      ensures Labelled(Value().Rows(), i + 1, out.Value().Rows(), next)
    {
      ghost var rs := Value().Rows();
      ghost var d := out.Value().Rows();
      var j := FirstEqualRow(i);
      if j >= 0 {
        LabelRepeated(rs, i, d, iRow, j);
        next := iRow[i := iRow[j]];
      } else {
        // No earlier row matched, so iRow[i] is still -1.
        LabelNew(rs, i, d, iRow);
        RowFromPointer(Value(), i);
        var st := out.InsertRowFrom(data[Area(i, dim1)..], -1, dim1);
        next := iRow[i := out.dim0 - 1];
      }
    }

    /** The scan inside unique: the first earlier row equal to row i, or -1. */
    method FirstEqualRow(i: nat) returns (j: int)
      requires Valid() && i < dim0
      ensures -1 <= j < i
      ensures j >= 0 ==> Value().Rows()[j] == Value().Rows()[i]
      ensures j == -1 ==> Value().Rows()[i] !in Value().Rows()[..i]
    {
      var row := GetRow(i);
      j := 0;
      while j < i
        invariant 0 <= j <= i
        invariant row !in Value().Rows()[..j]
      {
        if GetRow(j) == row {
          return j;
        }
        assert Value().Rows()[..j + 1] == Value().Rows()[..j] + [Value().Rows()[j]];
        j := j + 1;
      }
      return -1;
    }

    /** getData: the flat row-major vector. */
    function GetData(): (r: seq<real>)
      requires Valid()
      reads this
      ensures r == Flatten(Value().Rows())
    {
      FlattenRows(Value());
      data
    }
  }

  /** timesMatrixPlus on values: B + this . A, with B first resized to
      dim0 x A.dim1 when its shape differs. */
  function TimesPlus(m: Mat, a: Mat, b: Mat): (r: Result<Mat>)
    requires m.Valid() && a.Valid() && b.Valid()
    ensures r.Error? <==> a.dim0 != m.dim1
    ensures r.Ok? ==> r.value.Valid() && r.value.dim0 == m.dim0 && r.value.dim1 == a.dim1
    ensures r.Ok? && b.dim0 == m.dim0 && b.dim1 == a.dim1 ==>
      forall i, k :: 0 <= i < m.dim0 && 0 <= k < a.dim1 ==>
        r.value.At(i, k) == b.At(i, k) + Product(m, a).At(i, k)
    ensures r.Ok? ==> forall i, k :: 0 <= i < m.dim0 && 0 <= k < a.dim1 ==>
      r.value.At(i, k) == b.Resized(m.dim0, a.dim1).At(i, k) + Product(m, a).At(i, k)
  {
    if a.dim0 != m.dim1 then Error("Incompatible matrix sizes in matrix multiplication!")
    else
      ResizedSame(b);
      var b' := if b.dim0 != m.dim0 || b.dim1 != a.dim1 then b.Resized(m.dim0, a.dim1) else b;
      Ok(PlusProduct(b', m, a))
  }

  /** timesMatrix on values: this . A. */
  function Times(m: Mat, a: Mat): (r: Result<Mat>)
    requires m.Valid() && a.Valid()
    ensures r.Error? <==> a.dim0 != m.dim1
    ensures r.Ok? ==> r.value == Product(m, a)
    ensures r.Ok? ==> r == TimesPlus(m, a, Filled(m.dim0, a.dim1, 0.0))
  {
    if a.dim0 != m.dim1 then Error("Incompatible matrix sizes in matrix multiplication!")
    else
      PlusProductOfZero(m, a);
      Ok(Product(m, a))
  }
}
