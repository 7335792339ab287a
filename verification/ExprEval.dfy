/** The evaluator of the rule-condition language: JavaScript's values as far as a condition can tell them apart, and
    what the value of an expression depends on. Numbers are reals with the two infinities and NaN; how a numeral rounds
    and what a property access gives are parameters. */
module ExprEval {
  import opened Wrappers
  import opened ExprTokens
  import opened ExprParser
  import opened ExprGrammar
  import opened ExprPrinter
  import opened ExprRoundTrip

  datatype Number = Finite(n: real) | PlusInfinity | MinusInfinity | NaN

  /** `Obj` is an object and `Fun` a function, by identity. Conditions read JSON-like data, so there are no bigints
      and no symbols. */
  datatype Value = Undefined | Null | Flag(b: bool) | Numeric(number: Number) | Text(s: string) | Obj(ref: nat) |
    Fun(ref: nat)

  /** The object the outermost segment is looked up in, what `object[segment]` gives, and `Number(token)`. */
  datatype Context = Context(root: Value, get: (nat, string) -> Value, number: string -> Number)

  // ----- Primitives -----

  /** `Boolean(v)` */
  predicate Truthy(v: Value) {
    match v
    case Undefined => false
    case Null => false
    case Flag(b) => b
    case Numeric(x) => x != NaN && x != Finite(0.0)
    case Text(s) => s != ""
    case Obj(_) => true
    case Fun(_) => true
  }

  /** `a === b` */
  predicate Identical(a: Value, b: Value) {
    a == b && a != Numeric(NaN)
  }

  predicate Less(a: Number, b: Number) {
    match (a, b)
    case (NaN, _) => false
    case (_, NaN) => false
    case (Finite(x), Finite(y)) => x < y
    case (MinusInfinity, _) => b != MinusInfinity
    case (_, PlusInfinity) => a != PlusInfinity
    case _ => false
  }

  predicate LessOrEqual(a: Number, b: Number) {
    Less(a, b) || (a == b && a != NaN)
  }

  /** The six operators; an ordering of anything but two numbers is false. */
  predicate Holds(op: string, a: Value, b: Value) {
    if op == "==" then Identical(a, b)
    else if op == "!=" then !Identical(a, b)
    else if !a.Numeric? || !b.Numeric? then false
    else if op == "<" then Less(a.number, b.number)
    else if op == "<=" then LessOrEqual(a.number, b.number)
    else if op == ">" then Less(b.number, a.number)
    else op == ">=" && LessOrEqual(b.number, a.number)
  }

  // ----- Paths -----

  function Get(c: Context, v: Value, segment: string): Value {
    if v.Obj? then c.get(v.ref, segment) else Undefined
  }

  /** What the segments lead to, starting from a value. */
  function Follow(c: Context, v: Value, segments: seq<string>): Value {
    if segments == [] then v
    else Get(c, Follow(c, v, segments[..|segments| - 1]), segments[|segments| - 1])
  }

  /** `readPath`: the loop gives up at the first value that is not an object. */
  method ReadPath(c: Context, segments: seq<string>) returns (r: Value)
    ensures r == Follow(c, c.root, segments)
  {
    var current := c.root;
    for i := 0 to |segments|
      invariant current == Follow(c, c.root, segments[..i])
    {
      assert segments[..i + 1][..i] == segments[..i];
      if !current.Obj? {
        LostForGood(c, c.root, segments, i + 1);
        return Undefined;
      }
      current := c.get(current.ref, segments[i]);
    }
    assert segments[..|segments|] == segments;
    return current;
  }

  /** Once a path has left the objects it stays undefined. */
  lemma {:induction false} LostForGood(c: Context, v: Value, segments: seq<string>, k: nat)
    requires k <= |segments| && Follow(c, v, segments[..k]) == Undefined
    ensures Follow(c, v, segments) == Undefined
    decreases |segments| - k
  {
    if k == |segments| {
      assert segments[..k] == segments;
    } else {
      assert segments[..k + 1][..k] == segments[..k];
      LostForGood(c, v, segments, k + 1);
    }
  }

  /** No segment leads nowhere else; one segment is what the object has under it, and nothing of anything else. */
  lemma FollowShort(c: Context, v: Value, segment: string)
    ensures Follow(c, v, []) == v
    ensures v.Obj? ==> Follow(c, v, [segment]) == c.get(v.ref, segment)
    ensures !v.Obj? ==> Follow(c, v, [segment]) == Undefined
  {
    assert [segment][..0] == [];
  }

  /** A path of two parts is the second followed from where the first leads. */
  lemma {:induction false} FollowConcat(c: Context, v: Value, a: seq<string>, b: seq<string>)
    ensures Follow(c, v, a + b) == Follow(c, Follow(c, v, a), b)
  {
    if b == [] {
      assert a + b == a;
    } else {
      assert (a + b)[..|a + b| - 1] == a + b[..|b| - 1];
      FollowConcat(c, v, a, b[..|b| - 1]);
    }
  }

  // ----- Evaluation -----

  /** `evaluateExpression` */
  function Evaluate(c: Context, e: Expr): Value {
    match e
    case Lit(Str(text)) => Text(text)
    case Lit(Num(numeral)) => Numeric(c.number(numeral))
    case Lit(Bool(b)) => Flag(b)
    case Path(segments) => Follow(c, c.root, segments)
    case Not(x) => Flag(!Truthy(Evaluate(c, x)))
    case And(l, r) => Flag(Truthy(Evaluate(c, l)) && Truthy(Evaluate(c, r)))
    case Or(l, r) => Flag(Truthy(Evaluate(c, l)) || Truthy(Evaluate(c, r)))
    case Compare(op, l, r) => Flag(Holds(op, Evaluate(c, l), Evaluate(c, r)))
  }

  /** `evaluateCondition`: text that does not parse is false. */
  method EvaluateCondition(c: Context, source: string) returns (b: bool)
    ensures b <==> True(c, source)
  {
    var e := ParseExpression(source);
    return e.Some? && Truthy(Evaluate(c, e.value));
  }

  // ----- What a condition means -----

  /** The outcome of `evaluateCondition` on this text. */
  ghost predicate True(c: Context, source: string) {
    Parse(source).Some? && Truthy(Evaluate(c, Parse(source).value))
  }

  /** This text is the tree, printed in some spacing. */
  ghost predicate Writes(source: string, e: Expr) {
    exists gaps :: WellFormed(e) && GapsFor(Print(e, 0), gaps) && source == Spaced(Print(e, 0), gaps)
  }

  lemma WrittenReadsBack(source: string, e: Expr)
    requires Writes(source, e)
    ensures Parse(source) == Some(e)
  {
    var gaps :| WellFormed(e) && GapsFor(Print(e, 0), gaps) && source == Spaced(Print(e, 0), gaps);
    RoundTrip(e, gaps);
  }

  /** A written conjunction is true exactly when both of its parts, written as conditions of their own, are true. */
  lemma ConjunctionTrue(c: Context, l: Expr, r: Expr, whole: string, left: string, right: string)
    requires Writes(whole, And(l, r)) && Writes(left, l) && Writes(right, r)
    ensures True(c, whole) <==> True(c, left) && True(c, right)
  {
    WrittenReadsBack(whole, And(l, r));
    WrittenReadsBack(left, l);
    WrittenReadsBack(right, r);
  }

  /** A written disjunction is true exactly when one of its parts is. */
  lemma DisjunctionTrue(c: Context, l: Expr, r: Expr, whole: string, left: string, right: string)
    requires Writes(whole, Or(l, r)) && Writes(left, l) && Writes(right, r)
    ensures True(c, whole) <==> True(c, left) || True(c, right)
  {
    WrittenReadsBack(whole, Or(l, r));
    WrittenReadsBack(left, l);
    WrittenReadsBack(right, r);
  }

  /** A written negation is true exactly when its part is not. */
  lemma NegationTrue(c: Context, x: Expr, whole: string, part: string)
    requires Writes(whole, Not(x)) && Writes(part, x)
    ensures True(c, whole) <==> !True(c, part)
  {
    WrittenReadsBack(whole, Not(x));
    WrittenReadsBack(part, x);
  }

  /** A path alone is true exactly when what it leads to is neither undefined, null, false, zero, NaN nor the empty
      string. */
  lemma PathTrue(c: Context, segments: seq<string>, source: string)
    requires Writes(source, Path(segments))
    ensures True(c, source) <==>
            Follow(c, c.root, segments) !in
              [Undefined, Null, Flag(false), Numeric(NaN), Numeric(Finite(0.0)), Text("")]
  {
    WrittenReadsBack(source, Path(segments));
  }

  /** A literal alone: `true`, a string that is not empty, a numeral that is neither zero nor NaN. */
  lemma LiteralTrue(c: Context, l: Literal, source: string)
    requires Writes(source, Lit(l))
    ensures l.Bool? ==> (True(c, source) <==> l.value)
    ensures l.Str? ==> (True(c, source) <==> l.text != "")
    ensures l.Num? ==> (True(c, source) <==> c.number(l.numeral) != NaN && c.number(l.numeral) != Finite(0.0))
  {
    WrittenReadsBack(source, Lit(l));
  }

  /** What an operand is: where a path leads, the value a literal names, and for anything in parentheses the outcome of
      that condition, or of its comparison. */
  ghost predicate Denotes(c: Context, operand: Expr, v: Value) {
    match operand
    case Path(segments) => v == Follow(c, c.root, segments)
    case Lit(Str(text)) => v == Text(text)
    case Lit(Num(numeral)) => v == Numeric(c.number(numeral))
    case Lit(Bool(b)) => v == Flag(b)
    case _ => v.Flag? && forall source | Writes(source, operand) :: v.b <==> True(c, source)
  }

  /** Every comparison of two operands that are real numbers is the comparison of those numbers. */
  lemma NumbersCompare(c: Context, op: string, l: Expr, r: Expr, x: real, y: real, whole: string)
    requires Writes(whole, Compare(op, l, r))
    requires Denotes(c, l, Numeric(Finite(x))) && Denotes(c, r, Numeric(Finite(y)))
    ensures op == "==" ==> (True(c, whole) <==> x == y)
    ensures op == "!=" ==> (True(c, whole) <==> x != y)
    ensures op == "<" ==> (True(c, whole) <==> x < y)
    ensures op == "<=" ==> (True(c, whole) <==> x <= y)
    ensures op == ">" ==> (True(c, whole) <==> x > y)
    ensures op == ">=" ==> (True(c, whole) <==> x >= y)
  {
    WrittenReadsBack(whole, Compare(op, l, r));
    OperandDenotes(c, l, Numeric(Finite(x)));
    OperandDenotes(c, r, Numeric(Finite(y)));
  }

  /** The infinities lie beyond every real number and beside each other, and equal only themselves. */
  lemma InfinitiesCompare(c: Context, op: string, l: Expr, r: Expr, a: Number, b: Number, whole: string)
    requires Writes(whole, Compare(op, l, r)) && Denotes(c, l, Numeric(a)) && Denotes(c, r, Numeric(b))
    requires a != NaN && b != NaN && (a in [PlusInfinity, MinusInfinity] || b in [PlusInfinity, MinusInfinity])
    ensures op == "==" ==> (True(c, whole) <==> a == b)
    ensures op == "!=" ==> (True(c, whole) <==> a != b)
    ensures op == "<" ==> (True(c, whole) <==> a != b && (a == MinusInfinity || b == PlusInfinity))
    ensures op == "<=" ==> (True(c, whole) <==> a == MinusInfinity || b == PlusInfinity)
    ensures op == ">" ==> (True(c, whole) <==> a != b && (b == MinusInfinity || a == PlusInfinity))
    ensures op == ">=" ==> (True(c, whole) <==> b == MinusInfinity || a == PlusInfinity)
  {
    WrittenReadsBack(whole, Compare(op, l, r));
    OperandDenotes(c, l, Numeric(a));
    OperandDenotes(c, r, Numeric(b));
  }

  /** With NaN, or anything but a number, on either side no ordering is true, and `==` and `!=` tell values apart, NaN
      from itself too. */
  lemma OthersCompare(c: Context, op: string, l: Expr, r: Expr, a: Value, b: Value, whole: string)
    requires Writes(whole, Compare(op, l, r)) && Denotes(c, l, a) && Denotes(c, r, b)
    requires !a.Numeric? || !b.Numeric? || a.number == NaN || b.number == NaN
    ensures op in ["<", "<=", ">", ">="] ==> !True(c, whole)
    ensures op == "==" ==> (True(c, whole) <==> a == b && a != Numeric(NaN))
    ensures op == "!=" ==> (True(c, whole) <==> a != b || a == Numeric(NaN))
  {
    WrittenReadsBack(whole, Compare(op, l, r));
    OperandDenotes(c, l, a);
    OperandDenotes(c, r, b);
  }

  /** The value evaluation gives an operand is the one it denotes. */
  lemma OperandDenotes(c: Context, operand: Expr, v: Value)
    requires WellFormed(operand) && Denotes(c, operand, v)
    ensures v == Evaluate(c, operand)
  {
    if Level(operand) < 4 {
      var source := Written(operand);
      WrittenReadsBack(source, operand);
    }
  }

  lemma Written(e: Expr) returns (source: string)
    requires WellFormed(e)
    ensures Writes(source, e)
  {
    var gaps := seq(|Print(e, 0)| + 1, _ => "");
    source := Spaced(Print(e, 0), gaps);
  }

  /** The paths an expression mentions. */
  function Paths(e: Expr): set<seq<string>> {
    match e
    case Lit(_) => {}
    case Path(segments) => {segments}
    case Not(x) => Paths(x)
    case And(l, r) => Paths(l) + Paths(r)
    case Or(l, r) => Paths(l) + Paths(r)
    case Compare(_, l, r) => Paths(l) + Paths(r)
  }

  /** A value depends on nothing in the context but what the mentioned paths lead to. */
  lemma {:induction false} OnlyPathsMatter(c: Context, d: Context, e: Expr)
    requires c.number == d.number
    requires forall p | p in Paths(e) :: Follow(c, c.root, p) == Follow(d, d.root, p)
    ensures Evaluate(c, e) == Evaluate(d, e)
  {
    match e
    case Lit(_) =>
    case Path(segments) =>
      assert segments in Paths(e);
    case Not(x) =>
      OnlyPathsMatter(c, d, x);
    case And(l, r) =>
      OnlyPathsMatter(c, d, l);
      OnlyPathsMatter(c, d, r);
    case Or(l, r) =>
      OnlyPathsMatter(c, d, l);
      OnlyPathsMatter(c, d, r);
    case Compare(_, l, r) =>
      OnlyPathsMatter(c, d, l);
      OnlyPathsMatter(c, d, r);
  }

  // ----- What the operators mean to each other -----

  /** The operator that negation would seem to turn `op` into. */
  function Opposite(op: string): string {
    match op
    case "==" => "!="
    case "!=" => "=="
    case "<" => ">="
    case "<=" => ">"
    case ">" => "<="
    case _ => "<"
  }

  /** Both sides are numbers, and neither is NaN. */
  predicate Comparable(a: Value, b: Value) {
    a.Numeric? && b.Numeric? && a.number != NaN && b.number != NaN
  }

  /** A negated comparison means the opposite comparison exactly when it is one of identity or its sides are numbers. */
  lemma NegatedComparison(c: Context, op: string, l: Expr, r: Expr)
    requires op in COMPARE_OPS
    ensures Evaluate(c, Not(Compare(op, l, r))) == Evaluate(c, Compare(Opposite(op), l, r)) <==>
            op in ["==", "!="] || Comparable(Evaluate(c, l), Evaluate(c, r))
  {
    var a, b := Evaluate(c, l), Evaluate(c, r);
    if Comparable(a, b) {
      ExactlyOne(a.number, b.number);
    }
  }

  lemma ExactlyOne(a: Number, b: Number)
    requires a != NaN && b != NaN
    ensures Less(a, b) <==> !LessOrEqual(b, a)
    ensures Less(b, a) <==> !LessOrEqual(a, b)
  {
  }
}
