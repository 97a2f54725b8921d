/**
 Evaluation of the constant expressions in documented source. Integers are exact; what the host language does with
 floating-point numbers is a parameter.
 */
module StaticLiteral {
  import opened Common

  const MAX_EXPONENT := 64

  const MAX_RESULT_BITS := 256

  datatype UnaryOp = Plus | Minus | OtherUnary

  datatype BinaryOp = Add | Sub | Mult | Div | FloorDiv | Mod | Pow | OtherBinary

  datatype Value<F> =
    | Int(n: int)
    | Float(f: F)
    | Bool(b: bool)
    | Plain(name: string)         // None, a string or bytes
    | Tuple(items: seq<Value<F>>)
    | List(items: seq<Value<F>>)

  datatype Expr<F> =
    | Constant(value: Value<F>)
    | Unary(uop: UnaryOp, operand: Expr<F>)
    | Binary(op: BinaryOp, left: Expr<F>, right: Expr<F>)
    | TupleOf(elements: seq<Expr<F>>)
    | ListOf(elements: seq<Expr<F>>)
    | Unsupported                 // a name, a call, an attribute, an ellipsis, ...

  datatype Error =
    | NonFiniteLiteral
    | LiteralOutOfRange
    | UnsupportedConstant
    | UnsupportedOperand
    | ExponentOutOfRange
    | ArithmeticFailure           // division by zero, or a float overflow
    | NonFiniteResult
    | ResultOutOfRange
    | UnsupportedExpression

  /** Floating-point arithmetic: operations with a float operand, or with integers whose result is a float. */
  datatype Floats<!F> = Floats(finite: F -> bool, negate: F -> F, apply: (BinaryOp, Value<F>, Value<F>) -> Option<F>)

  // ----- integers -----

  function Power(base: int, exponent: nat): int {
    if exponent == 0 then 1 else base * Power(base, exponent - 1)
  }

  function Abs(n: int): nat {
    if n < 0 then -n else n
  }

  function BitLength(n: nat): nat {
    if n == 0 then 0 else 1 + BitLength(n / 2)
  }

  /** Division that rounds down, and the remainder that goes with it, on operands of either sign. */
  function FloorQuotient(a: int, b: int): int
    requires b != 0
  {
    if 0 < b then a / b else (-a) / (-b)
  }

  function FloorRemainder(a: int, b: int): int
    requires b != 0
  {
    if 0 < b then a % b else -((-a) % (-b))
  }

  predicate IsNumber<F>(v: Value<F>) {
    v.Int? || v.Float?
  }

  /** The integer that an operation gives on integers, if it gives one. */
  function IntResult(op: BinaryOp, a: int, b: int): Option<int> {
    match op
    case Add => Some(a + b)
    case Sub => Some(a - b)
    case Mult => Some(a * b)
    case FloorDiv => if b == 0 then None else Some(FloorQuotient(a, b))
    case Mod => if b == 0 then None else Some(FloorRemainder(a, b))
    case Pow => if b < 0 then None else Some(Power(a, b))
    case _ => None
  }

  // ----- evaluation -----

  function CheckedFloat<F>(fs: Floats<F>, op: BinaryOp, left: Value<F>, right: Value<F>): Result<Value<F>, Error> {
    match fs.apply(op, left, right)
    case None => Err(ArithmeticFailure)
    case Some(f) => if fs.finite(f) then Ok(Float(f)) else Err(NonFiniteResult)
  }

  function ApplyBinary<F>(fs: Floats<F>, op: BinaryOp, left: Value<F>, right: Value<F>): Result<Value<F>, Error> {
    if !IsNumber(left) || !IsNumber(right) then Err(UnsupportedOperand)
    else if op == Pow && (!right.Int? || MAX_EXPONENT < Abs(right.n)) then Err(ExponentOutOfRange)
    else if left.Int? && right.Int? && op != Div && !(op == Pow && right.n < 0) then
      match IntResult(op, left.n, right.n)
      case None => Err(ArithmeticFailure)
      case Some(n) => if MAX_RESULT_BITS < BitLength(Abs(n)) then Err(ResultOutOfRange) else Ok(Int(n))
    else CheckedFloat(fs, op, left, right)
  }

  function Evaluate<F>(fs: Floats<F>, e: Expr<F>): Result<Value<F>, Error>
    decreases e, 1, 0
  {
    match e
    case Constant(value) =>
      (match value
       case Float(f) => if fs.finite(f) then Ok(value) else Err(NonFiniteLiteral)
       case Int(n) => if MAX_RESULT_BITS < BitLength(Abs(n)) then Err(LiteralOutOfRange) else Ok(value)
       case Bool(_) => Ok(value)
       case Plain(_) => Ok(value)
       case _ => Err(UnsupportedConstant))
    case Unary(uop, operand) =>
      if uop == OtherUnary then Err(UnsupportedExpression)
      else
        (match Evaluate(fs, operand)
         case Err(error) => Err(error)
         case Ok(Int(n)) => Ok(Int(if uop == Plus then n else -n))
         case Ok(Float(f)) => Ok(Float(if uop == Plus then f else fs.negate(f)))
         case Ok(_) => Err(UnsupportedOperand))
    case Binary(op, left, right) =>
      if op == OtherBinary then Err(UnsupportedExpression)
      else
        var l := Evaluate(fs, left);
        if l.Err? then l
        else
          var r := Evaluate(fs, right);
          if r.Err? then r else ApplyBinary(fs, op, l.value, r.value)
    case TupleOf(elements) =>
      var items := EvaluateAll(fs, e, elements);
      if items.Err? then Err(items.error) else Ok(Tuple(items.value))
    case ListOf(elements) =>
      var items := EvaluateAll(fs, e, elements);
      if items.Err? then Err(items.error) else Ok(List(items.value))
    case Unsupported => Err(UnsupportedExpression)
  }

  /** The elements of a tuple or list, in order, up to the first that is refused. */
  function EvaluateAll<F>(fs: Floats<F>, whole: Expr<F>, elements: seq<Expr<F>>): (r: Result<seq<Value<F>>, Error>)
    requires forall x :: x in elements ==> x < whole
    ensures r.Ok? ==> |r.value| == |elements|
    decreases whole, 0, |elements|
  {
    if elements == [] then Ok([])
    else
      assert elements[0] in elements;
      var first := Evaluate(fs, elements[0]);
      if first.Err? then Err(first.error)
      else
        assert forall x :: x in elements[1..] ==> x in elements;
        var rest := EvaluateAll(fs, whole, elements[1..]);
        if rest.Err? then rest else Ok([first.value] + rest.value)
  }

  // ----- the mathematics -----

  /** The floor of the exact quotient. */
  function ExactFloor(a: int, b: int): int
    requires b != 0
  {
    ((a as real) / (b as real)).Floor
  }

  function ExactResult(op: BinaryOp, a: int, b: int): Option<int> {
    match op
    case Add => Some(a + b)
    case Sub => Some(a - b)
    case Mult => Some(a * b)
    case FloorDiv => if b == 0 then None else Some(ExactFloor(a, b))
    case Mod => if b == 0 then None else Some(a - b * ExactFloor(a, b))
    case Pow => if b < 0 then None else Some(Power(a, b))
    case _ => None
  }

  /** The integer that an expression denotes, without any limit on sizes. */
  function Exact<F>(e: Expr<F>): Option<int> {
    match e
    case Constant(Int(n)) => Some(n)
    case Unary(Plus, operand) => Exact(operand)
    case Unary(Minus, operand) => if Exact(operand).Some? then Some(-Exact(operand).value) else None
    case Binary(op, left, right) =>
      if Exact(left).Some? && Exact(right).Some? then ExactResult(op, Exact(left).value, Exact(right).value) else None
    case _ => None
  }

  predicate Fits(n: int) {
    Abs(n) < Power(2, MAX_RESULT_BITS)
  }

  /** Every intermediate integer fits in 256 bits and every exponent is at most 64. */
  predicate InBounds<F>(e: Expr<F>) {
    Exact(e).Some? && Fits(Exact(e).value) &&
    match e
    case Unary(_, operand) => InBounds(operand)
    case Binary(op, left, right) =>
      InBounds(left) && InBounds(right) && (op == Pow ==> Exact(right).value <= MAX_EXPONENT)
    case _ => true
  }

  // ----- bits and quotients -----

  lemma {:induction false} BitsAndPower(n: nat, k: nat)
    ensures BitLength(n) <= k <==> n < Power(2, k)
    decreases k
  {
    if k == 0 {
    } else {
      BitsAndPower(n / 2, k - 1);
      assert n < 2 * Power(2, k - 1) <==> n / 2 < Power(2, k - 1);
    }
  }

  lemma {:induction false} PowerAdds(a: nat, b: nat)
    ensures Power(2, a + b) == Power(2, a) * Power(2, b) && 1 <= Power(2, a)
  {
    if a > 0 {
      PowerAdds(a - 1, b);
      var x, y := Power(2, a - 1), Power(2, b);
      assert Power(2, a + b) == 2 * (x * y) == (2 * x) * y;
    }
  }

  lemma PowerMonotone(a: nat, b: nat)
    requires a <= b
    ensures Power(2, a) <= Power(2, b)
  {
    PowerAdds(b - a, a);
    PowerAdds(a, 0);
    hide Power;
    ProductBelow(1, Power(2, a), Power(2, b - a), Power(2, a));
  }

  lemma AbsProduct(a: int, b: int)
    ensures Abs(a * b) == Abs(a) * Abs(b)
  {
    if a < 0 && b < 0 {
      assert a * b == (-a) * (-b);
    } else if a < 0 {
      assert -(a * b) == (-a) * b;
      Signs(-a, b);
    } else if b < 0 {
      assert -(a * b) == a * (-b);
      Signs(a, -b);
    } else {
      Signs(a, b);
    }
  }

  lemma Signs(a: nat, b: nat)
    ensures 0 <= a * b
  {
  }

  lemma ProductBelow(a: nat, b: nat, x: nat, y: nat)
    requires a <= x && b <= y
    ensures a * b <= x * y
  {
    assert a * b <= x * b <= x * y;
  }

  /** A power of a number of k bits has at most n times as many. */
  lemma {:induction false} PowerBounded(a: int, k: nat, n: nat)
    requires Abs(a) <= Power(2, k)
    ensures Abs(Power(a, n)) <= Power(2, k * n)
  {
    if n == 0 {
      assert k * n == 0;
    } else {
      PowerBounded(a, k, n - 1);
      AbsProduct(a, Power(a, n - 1));
      ProductBelow(Abs(a), Abs(Power(a, n - 1)), Power(2, k), Power(2, k * (n - 1)));
      PowerAdds(k, k * (n - 1));
      assert k + k * (n - 1) == k * n;
    }
  }

  lemma FloorUnique(x: real, q: int)
    requires q as real <= x < q as real + 1.0
    ensures x.Floor == q
  {
  }

  lemma QuotientBetween(a: int, b: int, q: int, r: int)
    requires 0 < b && a == b * q + r && 0 <= r < b
    ensures q as real <= (a as real) / (b as real) < q as real + 1.0
  {
    var x, y, z, w := a as real, b as real, q as real, r as real;
    assert x == y * z + w by {
      assert (b * q) as real == y * z;
    }
    assert x / y == z + w / y by {
      assert (z + w / y) * y == z * y + w;
    }
    assert 0.0 <= w / y < 1.0;
  }

  /** Division that rounds down is the floor of the exact quotient, on operands of either sign. */
  lemma FloorIsExact(a: int, b: int)
    requires b != 0
    ensures FloorQuotient(a, b) == ExactFloor(a, b)
    ensures FloorRemainder(a, b) == a - b * ExactFloor(a, b)
    ensures if 0 < b then 0 <= FloorRemainder(a, b) < b else b < FloorRemainder(a, b) <= 0
  {
    if 0 < b {
      QuotientBetween(a, b, a / b, a % b);
      FloorUnique((a as real) / (b as real), a / b);
    } else {
      QuotientBetween(-a, -b, (-a) / (-b), (-a) % (-b));
      SignsCancel(a, b);
      FloorUnique((a as real) / (b as real), (-a) / (-b));
    }
  }

  lemma SignsCancel(a: int, b: int)
    requires b < 0
    ensures ((-a) as real) / ((-b) as real) == (a as real) / (b as real)
  {
    var x, y := a as real, b as real;
    assert (-a) as real == -x && (-b) as real == -y;
    assert (x / y) * (-y) == -x;
  }

  lemma ResultsAgree(op: BinaryOp, a: int, b: int)
    ensures IntResult(op, a, b) == ExactResult(op, a, b)
  {
    if b != 0 {
      FloorIsExact(a, b);
    }
  }

  lemma FitsByBits(n: int)
    ensures Fits(n) <==> BitLength(Abs(n)) <= MAX_RESULT_BITS
  {
    BitsAndPower(Abs(n), MAX_RESULT_BITS);
  }

  // ----- what evaluation promises -----

  /** Applied to numbers, an operation gives an integer exactly when the exact one does and it fits. */
  lemma BinaryExact<F>(fs: Floats<F>, op: BinaryOp, left: Value<F>, right: Value<F>, n: int)
    ensures ApplyBinary(fs, op, left, right) == Ok(Int(n))
            <==> left.Int? && right.Int? && ExactResult(op, left.n, right.n) == Some(n) && Fits(n)
                 && (op == Pow ==> right.n <= MAX_EXPONENT)
  {
    if left.Int? && right.Int? {
      ResultsAgree(op, left.n, right.n);
    }
    FitsByBits(n);
    hide BitLength, FloorQuotient, FloorRemainder, ExactFloor, Power;
  }

  lemma FloatHasNoInteger<F>(fs: Floats<F>, op: BinaryOp, left: Value<F>, right: Value<F>)
    requires ApplyBinary(fs, op, left, right).Ok? && !ApplyBinary(fs, op, left, right).value.Int?
    ensures left.Int? && right.Int? ==> ExactResult(op, left.n, right.n) == None
  {
  }

  /** An expression evaluates to the integer that it denotes within the bounds, and to no other. */
  ghost predicate Tells<F>(fs: Floats<F>, e: Expr<F>) {
    && (forall n :: Evaluate(fs, e) == Ok(Int(n)) <==> Exact(e) == Some(n) && InBounds(e))
    && (Evaluate(fs, e).Ok? && !Evaluate(fs, e).value.Int? ==> Exact(e) == None)
  }

  lemma OperationTells<F>(fs: Floats<F>, op: BinaryOp, left: Value<F>, right: Value<F>)
    ensures forall n :: ApplyBinary(fs, op, left, right) == Ok(Int(n))
              <==> left.Int? && right.Int? && ExactResult(op, left.n, right.n) == Some(n) && Fits(n)
                   && (op == Pow ==> right.n <= MAX_EXPONENT)
    ensures ApplyBinary(fs, op, left, right).Ok? && !ApplyBinary(fs, op, left, right).value.Int?
            ==> left.Int? && right.Int? ==> ExactResult(op, left.n, right.n) == None
  {
    hide ApplyBinary, ExactResult, Fits;
    forall n
      ensures ApplyBinary(fs, op, left, right) == Ok(Int(n))
              <==> left.Int? && right.Int? && ExactResult(op, left.n, right.n) == Some(n) && Fits(n)
                   && (op == Pow ==> right.n <= MAX_EXPONENT)
    {
      BinaryExact(fs, op, left, right, n);
    }
    if ApplyBinary(fs, op, left, right).Ok? && !ApplyBinary(fs, op, left, right).value.Int? {
      FloatHasNoInteger(fs, op, left, right);
    }
  }

  lemma OtherGivesNothing()
    ensures forall a, b :: ExactResult(OtherBinary, a, b) == None
  {
  }

  lemma BinaryTells<F>(fs: Floats<F>, op: BinaryOp, left: Expr<F>, right: Expr<F>)
    requires Tells(fs, left) && Tells(fs, right)
    ensures Tells(fs, Binary(op, left, right))
  {
    hide ApplyBinary, ExactResult, Fits;
    var l, r := Evaluate(fs, left), Evaluate(fs, right);
    if op == OtherBinary {
      OtherGivesNothing();
    } else if l.Ok? && r.Ok? {
      OperationTells(fs, op, l.value, r.value);
    }
  }

  lemma UnaryTells<F>(fs: Floats<F>, uop: UnaryOp, operand: Expr<F>)
    requires Tells(fs, operand)
    ensures Tells(fs, Unary(uop, operand))
  {
    hide Power;
  }

  /**
   An expression evaluates to an integer exactly when it denotes that integer in exact arithmetic and neither it nor
   any part of it goes beyond the bounds.
   */
  lemma {:induction false} IntegersExact<F>(fs: Floats<F>, e: Expr<F>)
    ensures forall n :: Evaluate(fs, e) == Ok(Int(n)) <==> Exact(e) == Some(n) && InBounds(e)
    ensures Evaluate(fs, e).Ok? && !Evaluate(fs, e).value.Int? ==> Exact(e) == None
    decreases e
  {
    hide ApplyBinary, ExactResult, Power;
    match e
    case Constant(Int(n)) => FitsByBits(n);
    case Unary(uop, operand) =>
      IntegersExact(fs, operand);
      assert Tells(fs, operand);
      UnaryTells(fs, uop, operand);
    case Binary(op, left, right) =>
      IntegersExact(fs, left);
      IntegersExact(fs, right);
      assert Tells(fs, left) && Tells(fs, right);
      BinaryTells(fs, op, left, right);
    case _ =>
  }

  /** Every integer in a value, inside tuples and lists too, is what its expression denotes, in 256 bits. */
  predicate Faithful<F>(e: Expr<F>, v: Value<F>)
    decreases v
  {
    match v
    case Int(n) => Exact(e) == Some(n) && BitLength(Abs(n)) <= MAX_RESULT_BITS
    case Tuple(items) =>
      e.TupleOf? && |items| == |e.elements| && forall k :: 0 <= k < |items| ==> Faithful(e.elements[k], items[k])
    case List(items) =>
      e.ListOf? && |items| == |e.elements| && forall k :: 0 <= k < |items| ==> Faithful(e.elements[k], items[k])
    case _ => true
  }

  lemma {:induction false} ElementsFaithful<F>(fs: Floats<F>, whole: Expr<F>, elements: seq<Expr<F>>)
    requires forall x :: x in elements ==> x < whole
    requires EvaluateAll(fs, whole, elements).Ok?
    ensures forall k :: 0 <= k < |elements| ==> Faithful(elements[k], EvaluateAll(fs, whole, elements).value[k])
    decreases whole, 0, |elements|
  {
    if elements != [] {
      assert elements[0] in elements;
      EveryIntegerExact(fs, elements[0]);
      assert forall x :: x in elements[1..] ==> x in elements;
      ElementsFaithful(fs, whole, elements[1..]);
      hide Faithful;
    }
  }

  lemma {:induction false} EveryIntegerExact<F>(fs: Floats<F>, e: Expr<F>)
    requires Evaluate(fs, e).Ok?
    ensures Faithful(e, Evaluate(fs, e).value)
    decreases e, 1, 0
  {
    var v := Evaluate(fs, e).value;
    IntegersExact(fs, e);
    if v.Int? {
      FitsByBits(v.n);
    } else if e.TupleOf? {
      ElementsFaithful(fs, e, e.elements);
    } else if e.ListOf? {
      ElementsFaithful(fs, e, e.elements);
    } else {
      NotACollection(fs, e);
    }
  }

  lemma NotACollection<F>(fs: Floats<F>, e: Expr<F>)
    requires Evaluate(fs, e).Ok? && !e.TupleOf? && !e.ListOf?
    ensures !Evaluate(fs, e).value.Tuple? && !Evaluate(fs, e).value.List?
  {
    hide IntResult, BitLength;
  }

  lemma {:induction false} PowerStrict(a: int, k: nat, n: nat)
    requires Abs(a) < Power(2, k) && 0 < n
    ensures Abs(Power(a, n)) < Power(2, k * n)
  {
    PowerBounded(a, k, n - 1);
    AbsProduct(a, Power(a, n - 1));
    var x, y := Power(2, k), Power(2, k * (n - 1));
    ProductBelow(Abs(a), Abs(Power(a, n - 1)), x - 1, y);
    PowerAdds(k, k * (n - 1));
    PowerAdds(k * (n - 1), 0);
    assert k + k * (n - 1) == k * n;
    hide *;
    BelowProduct(x, y);
  }

  lemma BelowProduct(x: nat, y: nat)
    requires 1 <= x && 1 <= y
    ensures (x - 1) * y < x * y
  {
  }

  lemma QuotientShrinks(a: int, b: int)
    requires b != 0
    ensures Abs(FloorQuotient(a, b)) <= Abs(a) && Abs(FloorRemainder(a, b)) < Abs(b)
  {
    if 0 < b {
      QuotientWithin(a, b);
    } else {
      QuotientWithin(-a, -b);
    }
  }

  lemma QuotientWithin(a: int, b: int)
    requires 0 < b
    ensures Abs(a / b) <= Abs(a)
  {
    var q, r := a / b, a % b;
    assert a == b * q + r && 0 <= r < b;
    hide *;
    if 0 <= q {
      AtLeast(b, q);
    } else {
      AtLeast(b, -q - 1);
      assert b * (-q - 1) == -(b * q) - b;
    }
  }

  lemma AtLeast(b: nat, q: nat)
    requires 1 <= b
    ensures q <= b * q
  {
  }

  lemma WithinPower(n: nat, k: nat, m: nat)
    requires n <= Power(2, k) && k < m
    ensures n < Power(2, m)
  {
    PowerMonotone(k, m - 1);
    PowerAdds(m - 1, 0);
  }

  /** Whatever the operation, the integer that is built before its size is checked has at most 64 * 256 bits. */
  lemma IntermediateBounded(op: BinaryOp, a: int, b: int)
    requires Fits(a) && Fits(b) && (op == Pow ==> b <= MAX_EXPONENT) && IntResult(op, a, b).Some?
    ensures BitLength(Abs(IntResult(op, a, b).value)) <= MAX_EXPONENT * MAX_RESULT_BITS
  {
    var n, k, m := IntResult(op, a, b).value, MAX_RESULT_BITS, MAX_EXPONENT * MAX_RESULT_BITS;
    BitsAndPower(Abs(n), m);
    PowerAdds(k, 0);
    PowerAdds(1, k);
    assert Power(2, 1) == 2 * Power(2, 0) == 2;
    hide Power, BitLength, FloorQuotient, FloorRemainder;
    match op
    case Add => WithinPower(Abs(n), 1 + k, m);
    case Sub => WithinPower(Abs(n), 1 + k, m);
    case Mult =>
      AbsProduct(a, b);
      ProductBelow(Abs(a), Abs(b), Power(2, k), Power(2, k));
      PowerAdds(k, k);
      WithinPower(Abs(n), k + k, m);
    case FloorDiv =>
      QuotientShrinks(a, b);
      WithinPower(Abs(n), k, m);
    case Mod =>
      QuotientShrinks(a, b);
      WithinPower(Abs(n), k, m);
    case Pow => PowerWithin(a, b);
    case _ =>
  }

  lemma PowerWithin(a: int, n: nat)
    requires Fits(a) && n <= MAX_EXPONENT
    ensures Abs(Power(a, n)) < Power(2, MAX_EXPONENT * MAX_RESULT_BITS)
  {
    if n == 0 {
      PowerAdds(1, 0);
      WithinPower(1, 0, MAX_EXPONENT * MAX_RESULT_BITS);
    } else {
      PowerStrict(a, MAX_RESULT_BITS, n);
      PowerMonotone(MAX_RESULT_BITS * n, MAX_EXPONENT * MAX_RESULT_BITS);
    }
  }

  /**
   Wherever an operation stands in an expression, its integer operands are exact and the integer that it builds
   before the size check has at most 64 * 256 bits.
   */
  lemma EvaluationBounded<F>(fs: Floats<F>, op: BinaryOp, left: Expr<F>, right: Expr<F>, a: int, b: int)
    requires Evaluate(fs, left) == Ok(Int(a)) && Evaluate(fs, right) == Ok(Int(b))
    requires Evaluate(fs, Binary(op, left, right)) != Err(ExponentOutOfRange) && IntResult(op, a, b).Some?
    ensures Exact(left) == Some(a) && Exact(right) == Some(b)
    ensures IntResult(op, a, b) == ExactResult(op, a, b)
    ensures BitLength(Abs(IntResult(op, a, b).value)) <= MAX_EXPONENT * MAX_RESULT_BITS
  {
    IntegersExact(fs, left);
    IntegersExact(fs, right);
    ResultsAgree(op, a, b);
    assert op == Pow ==> b <= MAX_EXPONENT;
    hide Power, BitLength, FloorQuotient, FloorRemainder, ExactFloor, Evaluate;
    IntermediateBounded(op, a, b);
  }

  // ----- what is not an integer -----

  /** A constant that is accepted evaluates to itself; the refused ones are exactly these. */
  lemma ConstantKept<F>(fs: Floats<F>, v: Value<F>)
    ensures Evaluate(fs, Constant(v)).Ok? ==> Evaluate(fs, Constant(v)).value == v
    ensures Evaluate(fs, Constant(v)).Ok?
            <==> match v
                 case Int(n) => Fits(n)
                 case Float(f) => fs.finite(f)
                 case Bool(_) => true
                 case Plain(_) => true
                 case _ => false
  {
    if v.Int? {
      FitsByBits(v.n);
    }
  }

  /** Signs are for numbers, and a minus before a minus takes it back. */
  lemma SignsOfNumbers<F>(fs: Floats<F>, e: Expr<F>, uop: UnaryOp)
    ensures Evaluate(fs, Unary(uop, e)).Ok?
            <==> uop != OtherUnary && Evaluate(fs, e).Ok? && IsNumber(Evaluate(fs, e).value)
    ensures Evaluate(fs, Unary(Plus, e)).Ok? ==> Evaluate(fs, Unary(Plus, e)) == Evaluate(fs, e)
    ensures Evaluate(fs, Unary(Minus, e)).Ok? && Evaluate(fs, e).value.Int?
            ==> Evaluate(fs, Unary(Minus, Unary(Minus, e))) == Evaluate(fs, e)
    ensures Evaluate(fs, Unary(Minus, e)).Ok? && Evaluate(fs, e).value.Float?
            ==> Evaluate(fs, Unary(Minus, e)) == Ok(Float(fs.negate(Evaluate(fs, e).value.f)))
  {
    hide Evaluate;
    SignIs(fs, e, uop);
    SignIs(fs, e, Plus);
    SignIs(fs, e, Minus);
    SignIs(fs, Unary(Minus, e), Minus);
  }

  lemma SignIs<F>(fs: Floats<F>, e: Expr<F>, uop: UnaryOp)
    ensures Evaluate(fs, Unary(uop, e))
            == if uop == OtherUnary then Err(UnsupportedExpression)
               else
                 match Evaluate(fs, e)
                 case Err(error) => Err(error)
                 case Ok(Int(n)) => Ok(Int(if uop == Plus then n else -n))
                 case Ok(Float(f)) => Ok(Float(if uop == Plus then f else fs.negate(f)))
                 case Ok(_) => Err(UnsupportedOperand)
  {
    hide BitLength;
  }

  /** Whether an operation on two numbers gives a float: one of them is one, or the integers give none. */
  predicate GivesFloat<F>(op: BinaryOp, left: Value<F>, right: Value<F>) {
    left.Float? || right.Float? || op == Div || (op == Pow && right.Int? && right.n < 0)
  }

  /** An operation gives a float exactly when its operands are such numbers and the host's result is finite. */
  lemma FloatExact<F>(fs: Floats<F>, op: BinaryOp, left: Expr<F>, right: Expr<F>, f: F)
    ensures Evaluate(fs, Binary(op, left, right)) == Ok(Float(f))
            <==> && op != OtherBinary && Evaluate(fs, left).Ok? && Evaluate(fs, right).Ok?
                 && var (l, r) := (Evaluate(fs, left).value, Evaluate(fs, right).value);
                    && IsNumber(l) && IsNumber(r) && GivesFloat(op, l, r)
                    && (op == Pow ==> r.Int? && Abs(r.n) <= MAX_EXPONENT)
                    && fs.apply(op, l, r) == Some(f) && fs.finite(f)
  {
    hide BitLength, Power, FloorQuotient, FloorRemainder;
  }

  /** All elements are accepted, and these are their values in order; or the first that is refused says why. */
  ghost predicate Elementwise<F>(fs: Floats<F>, elements: seq<Expr<F>>, r: Result<seq<Value<F>>, Error>) {
    match r
    case Ok(items) =>
      && |items| == |elements|
      && (forall k :: 0 <= k < |elements| ==> Evaluate(fs, elements[k]) == Ok(items[k]))
    case Err(error) =>
      exists k :: 0 <= k < |elements| && Evaluate(fs, elements[k]) == Err(error)
                  && forall j :: 0 <= j < k ==> Evaluate(fs, elements[j]).Ok?
  }

  lemma FirstRefused<F>(fs: Floats<F>, elements: seq<Expr<F>>, error: Error)
    requires elements != [] && Evaluate(fs, elements[0]) == Err(error)
    ensures Elementwise(fs, elements, Err(error))
  {
    hide Evaluate;
  }

  lemma LaterRefused<F>(fs: Floats<F>, elements: seq<Expr<F>>, error: Error)
    requires elements != [] && Evaluate(fs, elements[0]).Ok? && Elementwise(fs, elements[1..], Err(error))
    ensures Elementwise(fs, elements, Err(error))
  {
    hide Evaluate;
    var rest := elements[1..];
    var k :| 0 <= k < |rest| && Evaluate(fs, rest[k]) == Err(error)
             && forall j :: 0 <= j < k ==> Evaluate(fs, rest[j]).Ok?;
    assert Evaluate(fs, elements[k + 1]) == Err(error);
    assert forall j :: 0 < j < k + 1 ==> elements[j] == rest[j - 1];
  }

  lemma NoneRefused<F>(fs: Floats<F>, elements: seq<Expr<F>>, first: Value<F>, items: seq<Value<F>>)
    requires elements != [] && Evaluate(fs, elements[0]) == Ok(first) && Elementwise(fs, elements[1..], Ok(items))
    ensures Elementwise(fs, elements, Ok([first] + items))
  {
    hide Evaluate;
    assert forall k :: 0 < k < |elements| ==> elements[k] == elements[1..][k - 1];
  }

  lemma {:induction false} AllElements<F>(fs: Floats<F>, whole: Expr<F>, elements: seq<Expr<F>>)
    requires forall x :: x in elements ==> x < whole
    ensures Elementwise(fs, elements, EvaluateAll(fs, whole, elements))
    decreases |elements|
  {
    hide Evaluate, Elementwise;
    if elements == [] {
      NoElements(fs);
    } else {
      assert elements[0] in elements && forall x :: x in elements[1..] ==> x in elements;
      AllElements(fs, whole, elements[1..]);
      var first, rest := Evaluate(fs, elements[0]), EvaluateAll(fs, whole, elements[1..]);
      if first.Err? {
        FirstRefused(fs, elements, first.error);
      } else if rest.Err? {
        LaterRefused(fs, elements, rest.error);
      } else {
        NoneRefused(fs, elements, first.value, rest.value);
      }
    }
  }

  lemma NoElements<F>(fs: Floats<F>)
    ensures Elementwise<F>(fs, [], Ok([]))
  {
  }

  /** A tuple or list is accepted exactly when its elements are, and holds their values in order. */
  lemma CollectionKept<F>(fs: Floats<F>, e: Expr<F>)
    requires e.TupleOf? || e.ListOf?
    ensures var r := Evaluate(fs, e);
            && Elementwise(fs, e.elements, if r.Ok? && IsCollection(r.value) then Ok(r.value.items)
                                           else Err(if r.Err? then r.error else UnsupportedExpression))
            && (r.Ok? ==> if e.TupleOf? then r.value.Tuple? else r.value.List?)
            && (r.Ok? <==> forall k :: 0 <= k < |e.elements| ==> Evaluate(fs, e.elements[k]).Ok?)
  {
    AllElements(fs, e, e.elements);
    var r, all := Evaluate(fs, e), EvaluateAll(fs, e, e.elements);
    if e.TupleOf? {
      assert r == if all.Err? then Err(all.error) else Ok(Tuple(all.value));
    } else {
      assert r == if all.Err? then Err(all.error) else Ok(List(all.value));
    }
    hide Evaluate, EvaluateAll;
  }

  predicate IsCollection<F>(v: Value<F>) {
    v.Tuple? || v.List?
  }

  /** No float in a value, inside tuples and lists too, is infinite or undefined. */
  predicate AllFinite<F>(fs: Floats<F>, v: Value<F>)
    decreases v
  {
    match v
    case Float(f) => fs.finite(f)
    case Tuple(items) => forall k :: 0 <= k < |items| ==> AllFinite(fs, items[k])
    case List(items) => forall k :: 0 <= k < |items| ==> AllFinite(fs, items[k])
    case _ => true
  }

  /** What is asked of negation. */
  ghost predicate NegatesFinite<F(!new)>(fs: Floats<F>) {
    forall f :: fs.finite(f) ==> fs.finite(fs.negate(f))
  }

  lemma NegatedFinite<F(!new)>(fs: Floats<F>, f: F)
    requires NegatesFinite(fs) && fs.finite(f)
    ensures fs.finite(fs.negate(f))
  {
  }

  lemma {:induction false} EveryFloatFinite<F(!new)>(fs: Floats<F>, e: Expr<F>)
    requires NegatesFinite(fs)
    requires Evaluate(fs, e).Ok?
    ensures AllFinite(fs, Evaluate(fs, e).value)
    decreases e
  {
    hide BitLength, IntResult;
    match e
    case Constant(_) =>
    case Unary(_, operand) =>
      EveryFloatFinite(fs, operand);
      var v := Evaluate(fs, operand).value;
      if v.Float? {
        NegatedFinite(fs, v.f);
      }
    case Binary(_, _, _) =>
    case Unsupported =>
    case _ =>
      CollectionKept(fs, e);
      var items := Evaluate(fs, e).value.items;
      forall k | 0 <= k < |items|
        ensures AllFinite(fs, items[k])
      {
        assert e.elements[k] in e.elements;
        EveryFloatFinite(fs, e.elements[k]);
      }
      hide Evaluate;
  }
}
