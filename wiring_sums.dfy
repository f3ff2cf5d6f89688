/**
 * The hypercube sum of f(b, c) = add_i(b, c)·(W(b) + W(c)) +
 * mul_i(b, c)·W(b)·W(c) over the wiring tables of wb_bc_utility.rs.  A
 * wiring table of layer i is read row by row, row a holding the entries
 * of output index a; summing each row against the tensor of W gives the
 * entry a of the layer's values when no gate is listed twice.  Binding
 * the output variables of a table and taking row sums commute, so the
 * sum of f over the tables `prove` builds is W_0(r_a) at layer 0 and
 * α·W_i(r_b) + β·W_i(r_c) after it.
 */
module WiringSums {
  import opened Field
  import opened Hypercube
  import opened MultilinearEV
  import opened MleTheory
  import opened Gates
  import opened Circuits
  import WB = WbBcUtility
  import SumPoly
  import ProductPoly

  // ---------------------------------------------------------------------
  // Dot products
  // ---------------------------------------------------------------------

  /** The entry-by-entry products of two equally long tables. */
  function Products(u: seq<Fe>, v: seq<Fe>): (q: seq<Fe>)
    requires |u| == |v|
    ensures |q| == |u| && forall k :: 0 <= k < |u| ==> q[k] == Mul(u[k], v[k])
  {
    seq(|u|, k requires 0 <= k < |u| => Mul(u[k], v[k]))
  }

  /** The sum of u[k]·v[k]. */
  function Dot(u: seq<Fe>, v: seq<Fe>): Fe
    requires |u| == |v|
  {
    Sum(Products(u, v))
  }

  /** A table of zeros has dot product zero with anything. */
  lemma DotZero(u: seq<Fe>, v: seq<Fe>)
    requires |u| == |v| && forall k :: 0 <= k < |u| ==> u[k] == 0
    ensures Dot(u, v) == 0
  {
    forall k | 0 <= k < |u|
      ensures Products(u, v)[k] == 0
    {
      MulZero(v[k]);
    }
    SumOfZeros(Products(u, v));
  }

  /** Dot products are linear in the first table: the line through two tables gives the line through their dot products. */
  lemma DotLerpAll(lo: seq<Fe>, hi: seq<Fe>, v: seq<Fe>, r: Fe)
    requires |lo| == |hi| == |v|
    ensures Dot(LerpAll(lo, hi, r), v) == Lerp(Dot(lo, v), Dot(hi, v), r)
  {
    var lhs := Products(LerpAll(lo, hi, r), v);
    var mid := LerpAll(Products(lo, v), Products(hi, v), r);
    forall k | 0 <= k < |lo|
      ensures lhs[k] == mid[k]
    {
      LerpScale(v[k], lo[k], hi[k], r);
      MulComm(v[k], lo[k]);
      MulComm(v[k], hi[k]);
      MulComm(v[k], Lerp(lo[k], hi[k], r));
    }
    assert lhs == mid;
    SumLerpAll(Products(lo, v), Products(hi, v), r);
  }

  /** The dot product of a pointwise sum is the sum of the dot products. */
  lemma DotAdd(u: seq<Fe>, w: seq<Fe>, v: seq<Fe>)
    requires |u| == |w| == |v|
    ensures Dot(AddPolynomials(u, w), v) == Add(Dot(u, v), Dot(w, v))
  {
    var a, b := Products(u, v), Products(w, v);
    var lhs := Products(AddPolynomials(u, w), v);
    forall k | 0 <= k < |u|
      ensures lhs[k] == Add(a[k], b[k])
    {
      Distrib(v[k], u[k], w[k]);
    }
    assert lhs == seq(|a|, k requires 0 <= k < |a| => Add(a[k], b[k]));
    SumPointwiseAdd(a, b);
  }

  /** Scaling a table by c scales its dot product by c. */
  lemma DotScale(u: seq<Fe>, c: Fe, v: seq<Fe>)
    requires |u| == |v|
    ensures Dot(ScalarMul(u, c), v) == Mul(c, Dot(u, v))
  {
    var a := Products(u, v);
    var lhs := Products(ScalarMul(u, c), v);
    forall k | 0 <= k < |u|
      ensures lhs[k] == Mul(c, a[k])
    {
      MulComm(u[k], c);
      MulAssoc(c, u[k], v[k]);
    }
    assert lhs == seq(|a|, k requires 0 <= k < |a| => Mul(c, a[k]));
    SumPointwiseScale(a, c);
  }

  /** Setting a zero entry to x adds x to the sum. */
  lemma SumUpdateZero(s: seq<Fe>, j: nat, x: Fe)
    requires j < |s| && s[j] == 0
    ensures Sum(s[j := x]) == Add(Sum(s), x)
  {
    var lo, hi := s[..j], s[j + 1..];
    assert s == lo + [0] + hi;
    assert s[j := x] == lo + [x] + hi;
    SumAppend(lo + [0], hi);
    SumAppend(lo, [0]);
    SumAppend(lo + [x], hi);
    SumAppend(lo, [x]);
    SumSingleton(0);
    SumSingleton(x);
    AddZero(Sum(lo));
    AddAssoc(Sum(lo), x, Sum(hi));
    AddComm(x, Sum(hi));
    AddAssoc(Sum(lo), Sum(hi), x);
  }

  /** Setting a zero entry of u to one adds the matching entry of v to the dot product. */
  lemma DotUpdate(u: seq<Fe>, v: seq<Fe>, j: nat)
    requires |u| == |v| && j < |u| && u[j] == 0
    ensures Dot(u[j := 1], v) == Add(Dot(u, v), v[j])
  {
    MulZero(v[j]);
    MulOne(v[j]);
    assert Products(u[j := 1], v) == Products(u, v)[j := v[j]];
    SumUpdateZero(Products(u, v), j, v[j]);
  }

  // ---------------------------------------------------------------------
  // Rows
  // ---------------------------------------------------------------------

  /** Multiplication distributes over a sum of naturals. */
  lemma MulAddRight(x: nat, d: nat, m: nat)
    ensures (x + d) * m == x * m + d * m
  {
  }

  /** Row a of h rows of m entries lies inside the table, after the rows before it. */
  lemma RowBounds(m: nat, h: nat, a: nat)
    requires a < h
    ensures a * m + m == (a + 1) * m <= h * m
  {
    MulAddRight(a, 1, m);
    MulAddRight(a + 1, h - a - 1, m);
  }

  /** Row a of a table of h rows of m entries. */
  function Row(p: seq<Fe>, m: nat, h: nat, a: nat): (row: seq<Fe>)
    requires |p| == h * m && a < h
    ensures |row| == m
  {
    RowBounds(m, h, a);
    p[a * m..(a + 1) * m]
  }

  /** Entry y of row a is entry a·m + y of the table. */
  lemma RowEntry(p: seq<Fe>, m: nat, h: nat, a: nat, y: nat)
    requires |p| == h * m && a < h && y < m
    ensures a * m + y < |p| && Row(p, m, h, a)[y] == p[a * m + y]
  {
    RowBounds(m, h, a);
  }

  /** Distinct (row, column) pairs name distinct entries. */
  lemma RowIndexUnique(m: nat, a: nat, y: nat, a': nat, y': nat)
    requires y < m && y' < m && a * m + y == a' * m + y'
    ensures a == a' && y == y'
  {
    if a < a' {
      RowBounds(m, a', a);
    } else if a' < a {
      RowBounds(m, a, a');
    }
  }

  /** The dot products of the rows of p, h rows of |t| entries, with t. */
  function RowDots(p: seq<Fe>, t: seq<Fe>, h: nat): (q: seq<Fe>)
    requires |p| == h * |t|
    ensures |q| == h && forall a :: 0 <= a < h ==> q[a] == Dot(Row(p, |t|, h, a), t)
  {
    seq(h, a requires 0 <= a < h => Dot(Row(p, |t|, h, a), t))
  }

  /** Row a of the line through the two halves of 2h rows is the line through rows a and a + h. */
  lemma LerpAllRow(p: seq<Fe>, m: nat, h: nat, r: Fe, a: nat)
    requires |p| == (2 * h) * m && a < h
    ensures h * m <= |p| && |p[..h * m]| == |p[h * m..]| == h * m
    ensures Row(LerpAll(p[..h * m], p[h * m..], r), m, h, a) == LerpAll(Row(p, m, 2 * h, a), Row(p, m, 2 * h, a + h), r)
  {
    MulAddRight(h, h, m);
    var q := LerpAll(p[..h * m], p[h * m..], r);
    var lo, hi := Row(p, m, 2 * h, a), Row(p, m, 2 * h, a + h);
    forall y | 0 <= y < m
      ensures Row(q, m, h, a)[y] == LerpAll(lo, hi, r)[y]
    {
      RowEntry(q, m, h, a, y);
      RowEntry(p, m, 2 * h, a, y);
      RowEntry(p, m, 2 * h, a + h, y);
      MulAddRight(a, h, m);
    }
  }

  /**
   * A table of o + k variables is Pow2(o) rows of Pow2(k) entries; binding
   * its variable 0 binds the same variable of its row sums against t.
   */
  lemma BindRowDots(p: seq<Fe>, t: seq<Fe>, o: nat, k: nat, r: Fe)
    requires IsTable(p, o + k) && IsTable(t, k) && o >= 1
    ensures |p| == Pow2(o) * |t| && BindOk(p, 0) && |Bind(p, 0, r)| == Pow2(o - 1) * |t|
    ensures BindOk(RowDots(p, t, Pow2(o)), 0)
    ensures RowDots(Bind(p, 0, r), t, Pow2(o - 1)) == Bind(RowDots(p, t, Pow2(o)), 0, r)
  {
    var m, h := |t|, Pow2(o - 1);
    Pow2Add(o, k);
    Pow2Add(o - 1, k);
    assert o - 1 + k == o + k - 1;
    assert Pow2(o) == 2 * h;
    BindFirstIsLerpAll(p, o + k, r);
    var q := Bind(p, 0, r);
    assert q == LerpAll(p[..h * m], p[h * m..], r);
    var dots := RowDots(p, t, Pow2(o));
    BindFirst(dots, o, r);
    forall a | 0 <= a < h
      ensures RowDots(q, t, h)[a] == Bind(dots, 0, r)[a]
    {
      LerpAllRow(p, m, h, r, a);
      DotLerpAll(Row(p, m, 2 * h, a), Row(p, m, 2 * h, a + h), t, r);
    }
  }

  /**
   * Binding the first |rs| variables of the table binds the same variables
   * of its row sums: the row sums of the bound table are the bound row sums.
   */
  lemma {:induction false} BindAllRowDots(p: seq<Fe>, t: seq<Fe>, o: nat, k: nat, rs: seq<Fe>)
    requires IsTable(p, o + k) && IsTable(t, k) && |rs| <= o
    ensures |p| == Pow2(o) * |t| && BindAllOk(p, rs) && |BindAll(p, rs)| == Pow2(o - |rs|) * |t|
    ensures BindAllOk(RowDots(p, t, Pow2(o)), rs)
    ensures RowDots(BindAll(p, rs), t, Pow2(o - |rs|)) == BindAll(RowDots(p, t, Pow2(o)), rs)
    decreases |rs|
  {
    Pow2Add(o, k);
    Pow2Add(o - |rs|, k);
    assert o - |rs| + k == o + k - |rs|;
    TableEvalOk(p, o + k, rs);
    TableEvalOk(RowDots(p, t, Pow2(o)), o, rs);
    if |rs| > 0 {
      BindRowDots(p, t, o, k, rs[0]);
      BindFirst(p, o + k, rs[0]);
      assert o - 1 + k == o + k - 1;
      BindAllRowDots(Bind(p, 0, rs[0]), t, o - 1, k, rs[1..]);
    }
  }

  /**
   * The dot product with t of the table bound at all o output variables
   * is the evaluation of its row sums at the same point.
   */
  lemma DotBindAll(p: seq<Fe>, t: seq<Fe>, o: nat, k: nat, rs: seq<Fe>)
    requires IsTable(p, o + k) && IsTable(t, k) && |rs| == o
    ensures |p| == Pow2(o) * |t| && BindAllOk(p, rs) && |BindAll(p, rs)| == |t|
    ensures EvalOk(RowDots(p, t, Pow2(o)), rs)
    ensures Dot(BindAll(p, rs), t) == Eval(RowDots(p, t, Pow2(o)), rs)
  {
    BindAllRowDots(p, t, o, k, rs);
    var bound := BindAll(p, rs);
    assert Row(bound, |t|, 1, 0) == bound;
  }

  // ---------------------------------------------------------------------
  // The sum of f(b, c)
  // ---------------------------------------------------------------------

  /**
   * The hypercube sum of f over tables of one size: the dot product of
   * add_i with the table of W(b) + W(c) plus that of mul_i with the table
   * of W(b)·W(c).
   */
  lemma FbcSum(addW: seq<Fe>, mulW: seq<Fe>, wB: seq<Fe>, wC: seq<Fe>)
    requires |addW| == |mulW| == |wB| * |wC|
    ensures Sum(SumPoly.PointwiseSum(WB.FbcProducts(addW, mulW, wB, wC)))
         == Add(Dot(addW, Tensor(wB, wC, false)), Dot(mulW, Tensor(wB, wC, true)))
  {
    var pps := WB.FbcProducts(addW, mulW, wB, wC);
    var a, b := Products(addW, Tensor(wB, wC, false)), Products(mulW, Tensor(wB, wC, true));
    var sums := SumPoly.PointwiseSum(pps);
    forall x | 0 <= x < |addW|
      ensures sums[x] == Add(a[x], b[x])
    {
      var addFactors, mulFactors := pps[0].polynomials, pps[1].polynomials;
      assert ProductPoly.Column(addFactors, x) == [addW[x], Tensor(wB, wC, false)[x]];
      assert ProductPoly.Column(mulFactors, x) == [mulW[x], Tensor(wB, wC, true)[x]];
      ProductPoly.ProductOfPair(addW[x], Tensor(wB, wC, false)[x]);
      ProductPoly.ProductOfPair(mulW[x], Tensor(wB, wC, true)[x]);
      assert SumPoly.ProductColumn(pps, x) == [a[x], b[x]];
      SumPoly.SumOfPair(a[x], b[x]);
    }
    assert sums == seq(|a|, x requires 0 <= x < |a| => Add(a[x], b[x]));
    SumPointwiseAdd(a, b);
  }

  // ---------------------------------------------------------------------
  // Row sums of the wiring tables
  // ---------------------------------------------------------------------

  /** No gate is listed twice in a layer. */
  predicate DistinctGates(gates: seq<Gate>)
  {
    forall j, j' :: 0 <= j < j' < |gates| ==> gates[j] != gates[j']
  }

  /** The table of W(b) + W(c) for an addition, of W(b)·W(c) for a multiplication. */
  function GateTable(w: seq<Fe>, operation: Operation): (t: seq<Fe>)
    ensures |t| == |w| * |w|
  {
    Tensor(w, w, operation == MUL)
  }

  /**
   * The wiring tables of layer i are Pow2(OutputBits(i)) rows, one per
   * output index, each as long as the tensor of a table W of the layer's
   * input variables with itself.
   */
  lemma WiringRows(gates: seq<Gate>, i: nat, w: seq<Fe>, operation: Operation)
    requires IsTable(w, InputBits(i))
    ensures |Indicator(gates, operation, i)| == Pow2(OutputBits(i)) * |GateTable(w, operation)|
    ensures |GateTable(w, operation)| == Pow2(2 * InputBits(i))
  {
    Pow2Add(InputBits(i), InputBits(i));
    Pow2Add(OutputBits(i), 2 * InputBits(i));
  }

  /** The column of a gate reading `left` and `right` in a table of rows `width` by `width`. */
  function Cell(left: nat, right: nat, width: nat): nat
  {
    left * width + right
  }

  /** Entry (left, right) of the gate table is the operation on W[left] and W[right]. */
  lemma GateTableEntry(w: seq<Fe>, operation: Operation, left: nat, right: nat)
    requires left < |w| && right < |w|
    ensures Cell(left, right, |w|) < |GateTable(w, operation)|
    ensures GateTable(w, operation)[Cell(left, right, |w|)] == Operations(operation, w[left], w[right])
  {
    TensorEntry(w, w, operation == MUL, left, right);
  }

  /** In-range gates read inside a table of the layer's input variables. */
  lemma GatesReadTable(gates: seq<Gate>, i: nat, w: seq<Fe>)
    requires GatesInRange(gates, i) && IsTable(w, InputBits(i))
    ensures InputsInRange(gates, |w|)
  {
  }

  /** Setting one entry changes only the row it lies in, at its column. */
  lemma RowUpdate(p: seq<Fe>, m: nat, h: nat, a: nat, a': nat, y: nat, x: Fe)
    requires |p| == h * m && a < h && a' < h && y < m
    ensures a' * m + y < |p|
    ensures Row(p[a' * m + y := x], m, h, a) == if a == a' then Row(p, m, h, a)[y := x] else Row(p, m, h, a)
  {
    RowEntry(p, m, h, a', y);
    var q := p[a' * m + y := x];
    forall z | 0 <= z < m
      ensures Row(q, m, h, a)[z] == (if a == a' then Row(p, m, h, a)[y := x] else Row(p, m, h, a))[z]
    {
      RowEntry(q, m, h, a, z);
      RowEntry(p, m, h, a, z);
      if a * m + z == a' * m + y {
        RowIndexUnique(m, a, z, a', y);
      }
    }
  }

  /** Setting a zero entry to one adds its column of t to the dot product of its row, and to no other row's. */
  lemma RowDotUpdate(p: seq<Fe>, m: nat, h: nat, a: nat, a': nat, y: nat, t: seq<Fe>)
    requires |p| == h * m && a < h && a' < h && y < m && |t| == m
    requires a' * m + y < |p| && p[a' * m + y] == 0
    ensures Dot(Row(p[a' * m + y := 1], m, h, a), t)
         == if a == a' then Add(Dot(Row(p, m, h, a), t), t[y]) else Dot(Row(p, m, h, a), t)
  {
    RowUpdate(p, m, h, a, a', y, 1);
    if a == a' {
      RowEntry(p, m, h, a, y);
      DotUpdate(Row(p, m, h, a), t, y);
    }
  }

  /**
   * Gate j of an in-range layer sits at row `output`, column
   * left·|W| + right of its operation's wiring table, and no earlier gate
   * with that operation sits there when no gate is listed twice.
   */
  lemma GateCell(gates: seq<Gate>, i: nat, w: seq<Fe>, j: nat)
    requires GatesInRange(gates, i) && NumOfLayerVariables(i) <= 64 && DistinctGates(gates)
    requires IsTable(w, InputBits(i)) && j < |gates|
    ensures var g := gates[j];
      && g.output < Pow2(OutputBits(i)) && g.left < |w| && g.right < |w|
      && Cell(g.left, g.right, |w|) < |w| * |w|
      && GatePosition(i, g) == g.output * (|w| * |w|) + Cell(g.left, g.right, |w|)
      && GatePosition(i, g) < Pow2(NumOfLayerVariables(i))
      && !Marked(gates[..j], g.operation, i, GatePosition(i, g))
  {
    var g := gates[j];
    var k := InputBits(i);
    PositionInRange(i, g.output, g.left, g.right);
    Pow2Add(k, k);
    assert k + k == 2 * k;
    RowBounds(|w|, |w|, g.left);
    GateUnmarked(gates, i, j);
  }

  /** No gate before gate j with its operation sits at its position. */
  lemma GateUnmarked(gates: seq<Gate>, i: nat, j: nat)
    requires GatesInRange(gates, i) && NumOfLayerVariables(i) <= 64 && DistinctGates(gates) && j < |gates|
    ensures !Marked(gates[..j], gates[j].operation, i, GatePosition(i, gates[j]))
  {
    forall j' | 0 <= j' < j && gates[..j][j'].operation == gates[j].operation
      ensures GatePosition(i, gates[..j][j']) != GatePosition(i, gates[j])
    {
      assert gates[..j][j'] == gates[j'];
      DistinctPositions(gates, i, j', j);
    }
  }

  /** Two different in-range gates of a layer with one operation sit at different positions. */
  lemma DistinctPositions(gates: seq<Gate>, i: nat, j': nat, j: nat)
    requires GatesInRange(gates, i) && NumOfLayerVariables(i) <= 64 && DistinctGates(gates)
    requires j' < j < |gates| && gates[j'].operation == gates[j].operation
    ensures GatePosition(i, gates[j']) != GatePosition(i, gates[j])
  {
    var e, g := gates[j'], gates[j];
    assert TripleInRange(i, e.output, e.left, e.right) && TripleInRange(i, g.output, g.left, g.right);
    PositionInRange(i, e.output, e.left, e.right);
    PositionInRange(i, g.output, g.left, g.right);
    if GatePosition(i, e) == GatePosition(i, g) {
      PositionInjective(i, e.output, e.left, e.right, g.output, g.left, g.right);
    }
  }

  /**
   * Row a of a wiring table against its gate table after one more gate:
   * the gate's value is added when the gate has the table's operation and
   * output a, and nothing changes otherwise.
   */
  lemma WiringRowSnoc(gates: seq<Gate>, i: nat, w: seq<Fe>, operation: Operation, j: nat, a: nat)
    requires GatesInRange(gates, i) && NumOfLayerVariables(i) <= 64 && DistinctGates(gates)
    requires IsTable(w, InputBits(i)) && j < |gates| && a < Pow2(OutputBits(i))
    ensures gates[j].left < |w| && gates[j].right < |w|
    ensures |Indicator(gates[..j], operation, i)| == Pow2(OutputBits(i)) * |GateTable(w, operation)|
    ensures |Indicator(gates[..j + 1], operation, i)| == Pow2(OutputBits(i)) * |GateTable(w, operation)|
    ensures var m, h, t := |GateTable(w, operation)|, Pow2(OutputBits(i)), GateTable(w, operation);
      var before := Dot(Row(Indicator(gates[..j], operation, i), m, h, a), t);
      Dot(Row(Indicator(gates[..j + 1], operation, i), m, h, a), t)
      == if gates[j].operation == operation && gates[j].output == a
         then Add(before, Operations(operation, w[gates[j].left], w[gates[j].right]))
         else before
  {
    var g := gates[j];
    WiringRows(gates[..j], i, w, operation);
    WiringRows(gates[..j + 1], i, w, operation);
    GateCell(gates, i, w, j);
    var m, h, t := |GateTable(w, operation)|, Pow2(OutputBits(i)), GateTable(w, operation);
    var y := Cell(g.left, g.right, |w|);
    GateTableEntry(w, operation, g.left, g.right);
    IndicatorSnoc(gates, operation, i, j);
    var before := Indicator(gates[..j], operation, i);
    if g.operation == operation {
      var pos := GatePosition(i, g);
      assert g.output * m + y == pos;
      assert before[pos] == Mark(gates[..j], operation, i, pos) == 0;
      RowDotUpdate(before, m, h, a, g.output, y, t);
    }
  }

  /** Row a of layer i's wiring table for `operation`, summed against the operation's gate table. */
  function WiringSum(gates: seq<Gate>, i: nat, w: seq<Fe>, operation: Operation, a: nat): Fe
    requires IsTable(w, InputBits(i)) && a < Pow2(OutputBits(i))
  {
    WiringRows(gates, i, w, operation);
    Dot(Row(Indicator(gates, operation, i), |GateTable(w, operation)|, Pow2(OutputBits(i)), a), GateTable(w, operation))
  }

  /** Entry a of the layer's values: the sum of what its gates contribute to output a. */
  function LayerSums(gates: seq<Gate>, w: seq<Fe>, h: nat): (sums: seq<Fe>)
    requires InputsInRange(gates, |w|)
    ensures |sums| == h && forall a :: 0 <= a < h ==> sums[a] == Sum(Contributions(gates, w, a))
  {
    seq(h, a requires 0 <= a < h => Sum(Contributions(gates, w, a)))
  }

  /**
   * Over the first j gates of a layer whose gates are in range and listed
   * once, row a of the addition table against W(b) + W(c) plus row a of
   * the multiplication table against W(b)·W(c) is what those gates
   * contribute to output a.
   */
  lemma {:induction false} RowSumsPrefix(gates: seq<Gate>, i: nat, w: seq<Fe>, j: nat, a: nat)
    requires GatesInRange(gates, i) && NumOfLayerVariables(i) <= 64 && DistinctGates(gates)
    requires IsTable(w, InputBits(i)) && j <= |gates| && a < Pow2(OutputBits(i))
    ensures InputsInRange(gates[..j], |w|)
    ensures Add(WiringSum(gates[..j], i, w, ADD, a), WiringSum(gates[..j], i, w, MUL, a))
         == Sum(Contributions(gates[..j], w, a))
    decreases j
  {
    if j == 0 {
      RowSumsNoGates(gates[..0], i, w, a);
    } else {
      RowSumsPrefix(gates, i, w, j - 1, a);
      RowSumsSnoc(gates, i, w, j - 1, a);
    }
  }

  /** Without gates both row sums and the contributions are zero. */
  lemma RowSumsNoGates(gates: seq<Gate>, i: nat, w: seq<Fe>, a: nat)
    requires gates == [] && IsTable(w, InputBits(i)) && a < Pow2(OutputBits(i))
    ensures InputsInRange(gates, |w|)
    ensures Add(WiringSum(gates, i, w, ADD, a), WiringSum(gates, i, w, MUL, a)) == Sum(Contributions(gates, w, a))
  {
    var h := Pow2(OutputBits(i));
    forall operation: Operation
      ensures WiringSum(gates, i, w, operation, a) == 0
    {
      WiringRows(gates, i, w, operation);
      var m, table := |GateTable(w, operation)|, Indicator(gates, operation, i);
      forall y | 0 <= y < m
        ensures Row(table, m, h, a)[y] == 0
      {
        RowEntry(table, m, h, a, y);
        assert !Marked(gates, operation, i, a * m + y);
      }
      DotZero(Row(table, m, h, a), GateTable(w, operation));
    }
    assert Contributions(gates, w, a) == [];
    AddZero(0);
  }

  /** Gate j adds its contribution to output a to the row sums of the gates before it. */
  lemma RowSumsSnoc(gates: seq<Gate>, i: nat, w: seq<Fe>, j: nat, a: nat)
    requires GatesInRange(gates, i) && NumOfLayerVariables(i) <= 64 && DistinctGates(gates)
    requires IsTable(w, InputBits(i)) && j < |gates| && a < Pow2(OutputBits(i))
    requires InputsInRange(gates[..j], |w|)
    requires Add(WiringSum(gates[..j], i, w, ADD, a), WiringSum(gates[..j], i, w, MUL, a))
          == Sum(Contributions(gates[..j], w, a))
    ensures InputsInRange(gates[..j + 1], |w|)
    ensures Add(WiringSum(gates[..j + 1], i, w, ADD, a), WiringSum(gates[..j + 1], i, w, MUL, a))
         == Sum(Contributions(gates[..j + 1], w, a))
  {
    GatesReadTable(gates, i, w);
    var g := gates[j];
    WiringRowSnoc(gates, i, w, ADD, j, a);
    WiringRowSnoc(gates, i, w, MUL, j, a);
    ContributionsSnoc(gates, w, a, j);
    var x := Contribution(g, w, a);
    assert g.output == a ==> x == Operations(g.operation, w[g.left], w[g.right]);
    SnocAlgebra(WiringSum(gates[..j], i, w, ADD, a), WiringSum(gates[..j], i, w, MUL, a),
                WiringSum(gates[..j + 1], i, w, ADD, a), WiringSum(gates[..j + 1], i, w, MUL, a),
                Sum(Contributions(gates[..j], w, a)), x, g.operation == ADD, g.output == a);
  }

  /**
   * One more gate adds its value x to one of the two row sums, the one of
   * its operation, exactly when it targets the row; the total then grows
   * by x as the sum of contributions does.
   */
  lemma SnocAlgebra(add: Fe, mul: Fe, add': Fe, mul': Fe, total: Fe, x: Fe, isAdd: bool, hits: bool)
    requires Add(add, mul) == total
    requires add' == (if hits && isAdd then Add(add, x) else add)
    requires mul' == (if hits && !isAdd then Add(mul, x) else mul)
    requires !hits ==> x == 0
    ensures Add(add', mul') == Add(total, x)
  {
    if !hits {
      AddZero(total);
    } else if isAdd {
      AddAssoc(add, x, mul);
      AddComm(x, mul);
      AddAssoc(add, mul, x);
    } else {
      AddAssoc(add, mul, x);
    }
  }

  /**
   * The row sums of layer i's wiring tables against W are the layer's
   * values computed from W, when its gates are in range and listed once.
   */
  lemma RowDotsSum(gates: seq<Gate>, i: nat, w: seq<Fe>)
    requires GatesInRange(gates, i) && NumOfLayerVariables(i) <= 64 && DistinctGates(gates)
    requires IsTable(w, InputBits(i))
    ensures InputsInRange(gates, |w|)
    ensures |Indicator(gates, ADD, i)| == Pow2(OutputBits(i)) * |GateTable(w, ADD)|
    ensures |Indicator(gates, MUL, i)| == Pow2(OutputBits(i)) * |GateTable(w, MUL)|
    ensures AddPolynomials(RowDots(Indicator(gates, ADD, i), GateTable(w, ADD), Pow2(OutputBits(i))),
                           RowDots(Indicator(gates, MUL, i), GateTable(w, MUL), Pow2(OutputBits(i))))
         == LayerSums(gates, w, Pow2(OutputBits(i)))
  {
    GatesReadTable(gates, i, w);
    WiringRows(gates, i, w, ADD);
    WiringRows(gates, i, w, MUL);
    forall a | 0 <= a < Pow2(OutputBits(i))
      ensures Add(WiringSum(gates, i, w, ADD, a), WiringSum(gates, i, w, MUL, a)) == Sum(Contributions(gates, w, a))
    {
      RowSumsPrefix(gates, i, w, |gates|, a);
      assert gates[..|gates|] == gates;
    }
  }

  /**
   * The wiring table for `operation` with its output variables bound to
   * rs, summed against the gate table: the row sums evaluated at rs.
   */
  lemma BoundWiringDot(gates: seq<Gate>, i: nat, w: seq<Fe>, operation: Operation, rs: seq<Fe>)
    requires IsTable(w, InputBits(i)) && |rs| == OutputBits(i)
    ensures |Indicator(gates, operation, i)| == Pow2(OutputBits(i)) * |GateTable(w, operation)|
    ensures BindAllOk(Indicator(gates, operation, i), rs)
    ensures |BindAll(Indicator(gates, operation, i), rs)| == |GateTable(w, operation)|
    ensures EvalOk(RowDots(Indicator(gates, operation, i), GateTable(w, operation), Pow2(OutputBits(i))), rs)
    ensures Dot(BindAll(Indicator(gates, operation, i), rs), GateTable(w, operation))
         == Eval(RowDots(Indicator(gates, operation, i), GateTable(w, operation), Pow2(OutputBits(i))), rs)
  {
    WiringRows(gates, i, w, operation);
    DotBindAll(Indicator(gates, operation, i), GateTable(w, operation), OutputBits(i), 2 * InputBits(i), rs);
  }

  // ---------------------------------------------------------------------
  // The claims of one layer
  // ---------------------------------------------------------------------

  /**
   * Layer 0: the hypercube sum of f over the wiring tables with the
   * output variable bound to r_a is the layer's values, padded to two
   * entries, evaluated at r_a.
   */
  lemma InitialFbcSum(gates: seq<Gate>, w: seq<Fe>, ra: Fe)
    requires GatesInRange(gates, 0) && DistinctGates(gates) && IsTable(w, InputBits(0))
    ensures InputsInRange(gates, |w|) && EvalOk(LayerSums(gates, w, 2), [ra])
    ensures Sum(SumPoly.PointwiseSum(WB.FbcProducts(WB.InitialWiring(gates, 0, ADD, ra),
                                                    WB.InitialWiring(gates, 0, MUL, ra), w, w)))
         == Eval(LayerSums(gates, w, 2), [ra])
  {
    RowDotsSum(gates, 0, w);
    BoundWiringDot(gates, 0, w, ADD, [ra]);
    BoundWiringDot(gates, 0, w, MUL, [ra]);
    var addW, mulW := WB.InitialWiring(gates, 0, ADD, ra), WB.InitialWiring(gates, 0, MUL, ra);
    assert [ra][1..] == [];
    assert BindAll(Indicator(gates, ADD, 0), [ra]) == addW;
    assert BindAll(Indicator(gates, MUL, 0), [ra]) == mulW;
    FbcSum(addW, mulW, w, w);
    var h := Pow2(OutputBits(0));
    EvalAdd(RowDots(Indicator(gates, ADD, 0), GateTable(w, ADD), h),
            RowDots(Indicator(gates, MUL, 0), GateTable(w, MUL), h), [ra]);
  }

  /**
   * A wiring table folded at r_b and r_c with α and β, summed against its
   * gate table: α times the row sums at r_b plus β times them at r_c.
   */
  lemma FoldedDot(gates: seq<Gate>, i: nat, w: seq<Fe>, operation: Operation, alpha: Fe, beta: Fe,
                  rb: seq<Fe>, rc: seq<Fe>)
    requires IsTable(w, InputBits(i)) && |rb| == |rc| == OutputBits(i)
    ensures |Indicator(gates, operation, i)| == Pow2(OutputBits(i)) * |GateTable(w, operation)|
    ensures |WB.Folded(Indicator(gates, operation, i), NumOfLayerVariables(i), alpha, beta, rb, rc)|
         == |GateTable(w, operation)|
    ensures var dots := RowDots(Indicator(gates, operation, i), GateTable(w, operation), Pow2(OutputBits(i)));
      && EvalOk(dots, rb) && EvalOk(dots, rc)
      && Dot(WB.Folded(Indicator(gates, operation, i), NumOfLayerVariables(i), alpha, beta, rb, rc),
             GateTable(w, operation))
         == Add(Mul(alpha, Eval(dots, rb)), Mul(beta, Eval(dots, rc)))
  {
    var table, t := Indicator(gates, operation, i), GateTable(w, operation);
    BoundWiringDot(gates, i, w, operation, rb);
    BoundWiringDot(gates, i, w, operation, rc);
    var b, c := BindAll(table, rb), BindAll(table, rc);
    DotAdd(ScalarMul(b, alpha), ScalarMul(c, beta), t);
    DotScale(b, alpha, t);
    DotScale(c, beta, t);
  }

  /**
   * A later layer: the hypercube sum of f over the wiring tables folded
   * at r_b and r_c with α and β is α·V(r_b) + β·V(r_c), V the layer's
   * values computed from W.
   */
  lemma FoldedFbcSum(gates: seq<Gate>, i: nat, w: seq<Fe>, alpha: Fe, beta: Fe, rb: seq<Fe>, rc: seq<Fe>)
    requires i >= 1 && GatesInRange(gates, i) && NumOfLayerVariables(i) <= 64 && DistinctGates(gates)
    requires IsTable(w, InputBits(i)) && |rb| == |rc| == i
    ensures InputsInRange(gates, |w|)
    ensures EvalOk(LayerSums(gates, w, Pow2(i)), rb) && EvalOk(LayerSums(gates, w, Pow2(i)), rc)
    ensures var n := NumOfLayerVariables(i);
      Sum(SumPoly.PointwiseSum(WB.FbcProducts(WB.Folded(Indicator(gates, ADD, i), n, alpha, beta, rb, rc),
                                              WB.Folded(Indicator(gates, MUL, i), n, alpha, beta, rb, rc), w, w)))
      == Add(Mul(alpha, Eval(LayerSums(gates, w, Pow2(i)), rb)), Mul(beta, Eval(LayerSums(gates, w, Pow2(i)), rc)))
  {
    var n, h := NumOfLayerVariables(i), Pow2(i);
    RowDotsSum(gates, i, w);
    FoldedDot(gates, i, w, ADD, alpha, beta, rb, rc);
    FoldedDot(gates, i, w, MUL, alpha, beta, rb, rc);
    var addW := WB.Folded(Indicator(gates, ADD, i), n, alpha, beta, rb, rc);
    var mulW := WB.Folded(Indicator(gates, MUL, i), n, alpha, beta, rb, rc);
    FbcSum(addW, mulW, w, w);
    var addDots := RowDots(Indicator(gates, ADD, i), GateTable(w, ADD), h);
    var mulDots := RowDots(Indicator(gates, MUL, i), GateTable(w, MUL), h);
    EvalAdd(addDots, mulDots, rb);
    EvalAdd(addDots, mulDots, rc);
    AddSwapMiddle(Mul(alpha, Eval(addDots, rb)), Mul(beta, Eval(addDots, rc)),
                  Mul(alpha, Eval(mulDots, rb)), Mul(beta, Eval(mulDots, rc)));
    Distrib(alpha, Eval(addDots, rb), Eval(mulDots, rb));
    Distrib(beta, Eval(addDots, rc), Eval(mulDots, rc));
  }

  /**
   * The layer's sums over h ≥ MaxOutputIndex + 1 outputs are its values,
   * followed by zeros: no gate targets an output past the largest one.
   */
  lemma LayerSumsPadded(gates: seq<Gate>, w: seq<Fe>, h: nat)
    requires InputsInRange(gates, |w|) && MaxOutputIndex(gates) < h
    ensures LayerSums(gates, w, h) == LayerValues(gates, w) + seq(h - |LayerValues(gates, w)|, _ => 0)
  {
    var values := LayerValues(gates, w);
    var padded := values + seq(h - |values|, _ => 0);
    forall a | 0 <= a < h
      ensures LayerSums(gates, w, h)[a] == padded[a]
    {
      if a >= |values| {
        var c := Contributions(gates, w, a);
        forall k | 0 <= k < |c|
          ensures c[k] == 0
        {
          assert gates[k].output <= MaxOutputIndex(gates) < a;
        }
        SumOfZeros(c);
      }
    }
  }
}
