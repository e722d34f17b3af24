/** What the colorgrade code borrows from its host: numpy's `**` and `exp`,
    Python's `float()` and `int()` text parsing, and Python's `eval`. None of
    these is code of the repository, so each is a parameter of the model; the
    few facts the proofs need are stated as predicates that lemmas require. */
module Host {
  import opened Outcomes

  /** A value an evaluated expression can produce, or that can be bound to a
      name: a Python scalar, a float grid (flattened), a boolean grid, or a
      shape tuple. */
  datatype Value =
    | Scalar(x: real)
    | Numbers(xs: seq<real>)
    | Flags(bs: seq<bool>)
    | Dims(ds: seq<int>)

  /** The local bindings handed to `eval`. */
  type Env = map<string, Value>

  datatype Host = Host(
    pow: (real, real) -> real,
    exp: real -> real,
    parseFloat: string -> Option<real>,
    parseInt: string -> Option<int>,
    eval: (string, Env) -> Result<Value>
  )

  /** The facts about `x ** e` that the commutative maps rely on. */
  ghost predicate PowLaws(host: Host) {
    && (forall x :: host.pow(x, 1.0) == x)
    && (forall e :: e > 0.0 ==> host.pow(0.0, e) == 0.0)
    && (forall e :: e > 0.0 ==> host.pow(1.0, e) == 1.0)
    && (forall x, e :: 0.0 <= x <= 1.0 && e > 0.0 ==> 0.0 <= host.pow(x, e) <= 1.0)
  }

  /** The facts about `exp` used for the a = 0 identity. */
  ghost predicate ExpLaws(host: Host) {
    && host.exp(0.0) == 1.0
    && (forall y :: host.exp(y) > 0.0)
  }

  /** The real power and exponential laws behind the group property the
      commutative maps promise in their docstrings: a positive unit value
      stays positive under a power, and raising to exp(y1) and then to
      exp(y2) is raising to exp(y1 + y2). */
  ghost predicate GroupLaws(host: Host) {
    && PowLaws(host)
    && ExpLaws(host)
    && (forall x, e :: 0.0 < x <= 1.0 && e > 0.0 ==> host.pow(x, e) > 0.0)
    && (forall x, y1, y2 {:trigger host.pow(host.pow(x, host.exp(y1)), host.exp(y2))} :: 0.0 <= x <= 1.0 ==>
          host.pow(host.pow(x, host.exp(y1)), host.exp(y2)) == host.pow(x, host.exp(y1 + y2)))
  }

  /** Order facts behind the direction the commutative maps move values: a
      non-positive exponent argument gives a factor of at most 1, and a
      power of a unit value with an exponent at most 1 does not decrease it. */
  ghost predicate OrderLaws(host: Host) {
    && (forall y :: y <= 0.0 ==> host.exp(y) <= 1.0)
    && (forall y :: y >= 0.0 ==> host.exp(y) >= 1.0)
    && (forall x, e :: 0.0 <= x <= 1.0 && 0.0 < e <= 1.0 ==> host.pow(x, e) >= x)
    && (forall x, e :: 0.0 <= x <= 1.0 && e >= 1.0 ==> host.pow(x, e) <= x)
  }
}
