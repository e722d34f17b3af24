/** The broadcasting `min`/`max` that colorgrade_core.py hands to user
    expressions (get_comparison_func) and the shape wrapper around Python's
    `eval` (eval_with). The interpreter itself belongs to the host. */
module Expressions {
  import opened Outcomes
  import opened Host

  /** Which numpy reduction a comparison function wraps. */
  datatype Reduction = Least | Greatest

  /** An argument of `min`/`max` inside an expression: a Python scalar or a
      grid, flattened. */
  datatype Operand = Num(x: real) | Grid(xs: seq<real>)

  /** The smaller (Least) or larger (Greatest) of two values. */
  function Pick(op: Reduction, a: real, b: real): (m: real)
    ensures m == a || m == b
    ensures op.Least? ==> m <= a && m <= b
    ensures op.Greatest? ==> m >= a && m >= b
  {
    match op
    case Least => if b < a then b else a
    case Greatest => if b > a then b else a
  }

  /** m is the minimum (Least) or maximum (Greatest) of xs. */
  predicate IsExtreme(op: Reduction, m: real, xs: seq<real>) {
    && m in xs
    && (forall i :: 0 <= i < |xs| ==> (op.Least? ==> m <= xs[i]) && (op.Greatest? ==> m >= xs[i]))
  }

  /** np.min / np.max of a non-empty list of numbers. */
  function Reduce(op: Reduction, xs: seq<real>): (m: real)
    requires |xs| > 0
    ensures IsExtreme(op, m, xs)
  {
    if |xs| == 1 then xs[0]
    else
      var m0 := Reduce(op, xs[..|xs| - 1]);
      assert forall i :: 0 <= i < |xs| - 1 ==> xs[..|xs| - 1][i] == xs[i];
      Pick(op, m0, xs[|xs| - 1])
  }

  /** The extreme of a list is unique, so any value with the defining
      property is what the reduction returns. */
  lemma ReduceUnique(op: Reduction, m: real, xs: seq<real>)
    requires |xs| > 0 && IsExtreme(op, m, xs)
    ensures Reduce(op, xs) == m
  {
    var r := Reduce(op, xs);
    var i :| 0 <= i < |xs| && xs[i] == r;
    var j :| 0 <= j < |xs| && xs[j] == m;
  }

  /** Every argument is a scalar (`np.any(which_arrays)` is false). */
  predicate AllScalars(args: seq<Operand>) {
    forall i :: 0 <= i < |args| ==> args[i].Num?
  }

  /** The scalars of an all-scalar argument list. */
  function Scalars(args: seq<Operand>): (xs: seq<real>)
    requires AllScalars(args)
    ensures |xs| == |args|
    ensures forall i :: 0 <= i < |args| ==> xs[i] == args[i].x
  {
    seq(|args|, i requires 0 <= i < |args| => args[i].x)
  }

  /** The position of the first grid argument (`np.argmax(which_arrays)`). */
  function FirstGrid(args: seq<Operand>): (k: nat)
    requires !AllScalars(args)
    ensures k < |args| && args[k].Grid?
    ensures forall i :: 0 <= i < k ==> args[i].Num?
  {
    if args[0].Grid? then 0
    else
      assert !AllScalars(args[1..]) by {
        var i :| 0 <= i < |args| && !args[i].Num?;
        assert args[1..][i - 1] == args[i];
      }
      var k := FirstGrid(args[1..]);
      assert forall i :: 1 <= i < k + 1 ==> args[i] == args[1..][i - 1];
      k + 1
  }

  /** Every grid argument has `len` cells, so each can be stacked with the
      scalars broadcast to the first grid's shape. */
  predicate Conforming(args: seq<Operand>, len: nat) {
    forall i :: 0 <= i < |args| && args[i].Grid? ==> |args[i].xs| == len
  }

  /** Cell n of an argument after broadcasting (`np.full(shape, val)` for a
      scalar). */
  function At(a: Operand, n: nat): real
    requires a.Grid? ==> n < |a.xs|
  {
    if a.Num? then a.x else a.xs[n]
  }

  /** Cell n of every argument: the column that `axis=0` reduces. */
  function Column(args: seq<Operand>, len: nat, n: nat): (col: seq<real>)
    requires Conforming(args, len) && n < len
    ensures |col| == |args|
    ensures forall i :: 0 <= i < |args| ==> col[i] == At(args[i], n)
  {
    seq(|args|, i requires 0 <= i < |args| => At(args[i], n))
  }

  /** The comparison function built by get_comparison_func around np.min or
      np.max. With no arguments numpy reduces an empty array, a ValueError;
      with only scalars the scalars are reduced; otherwise the scalars are
      broadcast to the shape of the first grid and the stack is reduced
      cell by cell, and grids of another shape make a ragged stack, a
      ValueError. */
  function Compare(op: Reduction, args: seq<Operand>): (r: Result<Operand>)
    ensures r.Err? <==> |args| == 0 || (!AllScalars(args) && !Conforming(args, |args[FirstGrid(args)].xs|))
    ensures r.Err? ==> r.error == ValueError
    ensures r.Ok? && AllScalars(args) ==> r.value.Num? && IsExtreme(op, r.value.x, Scalars(args))
    ensures r.Ok? && !AllScalars(args) ==>
      var len := |args[FirstGrid(args)].xs|;
      && r.value.Grid? && |r.value.xs| == len
      && forall n :: 0 <= n < len ==> IsExtreme(op, r.value.xs[n], Column(args, len, n))
  {
    if |args| == 0 then Err(ValueError)
    else if AllScalars(args) then Ok(Num(Reduce(op, Scalars(args))))
    else
      var len := |args[FirstGrid(args)].xs|;
      if !Conforming(args, len) then Err(ValueError)
      else Ok(Grid(seq(len, n requires 0 <= n < len => Reduce(op, Column(args, len, n)))))
  }

  /** `min(c, grid)` is the cellwise minimum of the grid and the scalar c
      (and likewise for `max`), in either argument order. */
  lemma CompareBroadcast(op: Reduction, c: real, xs: seq<real>)
    ensures Compare(op, [Num(c), Grid(xs)]) == Ok(Grid(seq(|xs|, n requires 0 <= n < |xs| => Pick(op, c, xs[n]))))
    ensures Compare(op, [Grid(xs), Num(c)]) == Ok(Grid(seq(|xs|, n requires 0 <= n < |xs| => Pick(op, xs[n], c))))
  {
    var args1, args2 := [Num(c), Grid(xs)], [Grid(xs), Num(c)];
    assert !AllScalars(args1) && !AllScalars(args2) by {
      assert !args1[1].Num? && !args2[0].Num?;
    }
    assert FirstGrid(args1) == 1 && FirstGrid(args2) == 0;
    assert Conforming(args1, |xs|) && Conforming(args2, |xs|);
    var want1 := seq(|xs|, n requires 0 <= n < |xs| => Pick(op, c, xs[n]));
    var want2 := seq(|xs|, n requires 0 <= n < |xs| => Pick(op, xs[n], c));
    var got1 := seq(|xs|, n requires 0 <= n < |xs| => Reduce(op, Column(args1, |xs|, n)));
    var got2 := seq(|xs|, n requires 0 <= n < |xs| => Reduce(op, Column(args2, |xs|, n)));
    forall n | 0 <= n < |xs|
      ensures got1[n] == want1[n] && got2[n] == want2[n]
    {
      var col1, col2 := Column(args1, |xs|, n), Column(args2, |xs|, n);
      assert col1[..1] == [c];
      assert col2[..1] == [xs[n]];
    }
    assert got1 == want1 && got2 == want2;
  }

  // ---------------------------------------------------------------------
  // eval_with

  /** Every dimension is non-negative, as `np.full` demands. */
  predicate ValidShape(ds: seq<int>) {
    forall i :: 0 <= i < |ds| ==> ds[i] >= 0
  }

  /** The number of cells of a shape. */
  function Size(ds: seq<int>): (n: nat)
    requires ValidShape(ds)
  {
    if |ds| == 0 then 1 else ds[0] * Size(ds[1..])
  }

  /** `np.full(shape, x)`, flattened; a negative dimension is a ValueError. */
  function Full(ds: seq<int>, x: real): (r: Result<Value>)
    ensures r.Ok? <==> ValidShape(ds)
    ensures r.Ok? ==> (r.value.Numbers? && |r.value.xs| == Size(ds)
      && forall i :: 0 <= i < |r.value.xs| ==> r.value.xs[i] == x)
    ensures r.Err? ==> r.error == ValueError
  {
    if ValidShape(ds) then Ok(Numbers(seq(Size(ds), _ => x))) else Err(ValueError)
  }

  /** eval_with: evaluate the expression with the bindings as locals; when
      a result shape is given and the value is a scalar, spread it over a
      grid of that shape. */
  function EvalWith(host: Host, expression: string, resultShape: Option<seq<int>>, bindings: Env): (r: Result<Value>)
    ensures host.eval(expression, bindings).Err? ==> r == host.eval(expression, bindings)
    ensures resultShape.None? ==> r == host.eval(expression, bindings)
    ensures resultShape.Some? && r.Ok? ==> !r.value.Scalar?
    ensures host.eval(expression, bindings).Ok? && !host.eval(expression, bindings).value.Scalar?
      ==> r == host.eval(expression, bindings)
  {
    var v :- host.eval(expression, bindings);
    if resultShape.Some? && v.Scalar? then Full(resultShape.value, v.x) else Ok(v)
  }

  /** With a valid result shape, a scalar result becomes a grid holding the
      scalar in every cell of that shape. */
  lemma EvalWithBroadcast(host: Host, expression: string, ds: seq<int>, bindings: Env)
    requires ValidShape(ds)
    requires host.eval(expression, bindings).Ok? && host.eval(expression, bindings).value.Scalar?
    ensures var r := EvalWith(host, expression, Some(ds), bindings);
      && r.Ok? && r.value.Numbers? && |r.value.xs| == Size(ds)
      && forall i :: 0 <= i < Size(ds) ==> r.value.xs[i] == host.eval(expression, bindings).value.x
  {
  }
}
