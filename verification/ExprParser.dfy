/** The recursive-descent parser of the rule-condition language: what each level returns on a token list, and the
    parser itself over a stream whose index it moves. */
module ExprParser {
  import opened Wrappers
  import opened Lines
  import opened ExprTokens

  /** A literal value. A number is kept as the text it was written with. */
  datatype Literal = Str(text: string) | Num(numeral: string) | Bool(value: bool)

  datatype Expr =
    | Path(segments: seq<string>)
    | Lit(literal: Literal)
    | Compare(op: string, left: Expr, right: Expr)
    | Not(operand: Expr)
    | And(left: Expr, right: Expr)
    | Or(left: Expr, right: Expr)

  const COMPARE_OPS := ["==", "!=", "<", "<=", ">", ">="]

  predicate IsNumeral(token: string) {
    NumberLen(token) == Some(|token|)
  }

  /** `parseLiteralOrPath`: any token at all is accepted as an operand. */
  function Leaf(token: string): Expr
    requires token != ""
  {
    if token == "true" || token == "false" then Lit(Bool(token == "true"))
    else if token[0] == '"' || token[0] == '\'' then
      Lit(Str(if |token| == 1 then "" else token[1..|token| - 1]))
    else if IsNumeral(token) then Lit(Num(token))
    else Path(Split(token, '.'))
  }

  /** A parse that succeeded, with the index after its last token, or a throw. */
  datatype Parsed = Done(expr: Expr, next: nat) | Thrown

  predicate Solid(ts: seq<string>) {
    "" !in ts
  }

  // ----- What each level returns when started at index i -----

  function OrAt(ts: seq<string>, i: nat): (r: Parsed)
    requires Solid(ts) && i <= |ts|
    ensures r.Done? ==> i < r.next <= |ts|
    decreases |ts| - i, 5
  {
    match AndAt(ts, i)
    case Thrown => Thrown
    case Done(left, next) => OrRest(ts, next, left)
  }

  function OrRest(ts: seq<string>, i: nat, left: Expr): (r: Parsed)
    requires Solid(ts) && i <= |ts|
    ensures r.Done? ==> i <= r.next <= |ts|
    decreases |ts| - i, 6
  {
    if i < |ts| && ts[i] == "||" then
      match AndAt(ts, i + 1)
      case Thrown => Thrown
      case Done(right, next) => OrRest(ts, next, Or(left, right))
    else Done(left, i)
  }

  function AndAt(ts: seq<string>, i: nat): (r: Parsed)
    requires Solid(ts) && i <= |ts|
    ensures r.Done? ==> i < r.next <= |ts|
    decreases |ts| - i, 3
  {
    match NotAt(ts, i)
    case Thrown => Thrown
    case Done(left, next) => AndRest(ts, next, left)
  }

  function AndRest(ts: seq<string>, i: nat, left: Expr): (r: Parsed)
    requires Solid(ts) && i <= |ts|
    ensures r.Done? ==> i <= r.next <= |ts|
    decreases |ts| - i, 4
  {
    if i < |ts| && ts[i] == "&&" then
      match NotAt(ts, i + 1)
      case Thrown => Thrown
      case Done(right, next) => AndRest(ts, next, And(left, right))
    else Done(left, i)
  }

  function NotAt(ts: seq<string>, i: nat): (r: Parsed)
    requires Solid(ts) && i <= |ts|
    ensures r.Done? ==> i < r.next <= |ts|
    decreases |ts| - i, 2
  {
    if i < |ts| && ts[i] == "!" then
      match NotAt(ts, i + 1)
      case Thrown => Thrown
      case Done(operand, next) => Done(Not(operand), next)
    else ComparisonAt(ts, i)
  }

  function ComparisonAt(ts: seq<string>, i: nat): (r: Parsed)
    requires Solid(ts) && i <= |ts|
    ensures r.Done? ==> i < r.next <= |ts|
    decreases |ts| - i, 1
  {
    match OperandAt(ts, i)
    case Thrown => Thrown
    case Done(left, next) =>
      if next < |ts| && ts[next] in COMPARE_OPS then
        match OperandAt(ts, next + 1)
        case Thrown => Thrown
        case Done(right, next') => Done(Compare(ts[next], left, right), next')
      else Done(left, next)
  }

  /** A parenthesised expression, or any other single token. */
  function OperandAt(ts: seq<string>, i: nat): (r: Parsed)
    requires Solid(ts) && i <= |ts|
    ensures r.Done? ==> i < r.next <= |ts|
    decreases |ts| - i, 0
  {
    if i == |ts| then Thrown
    else if ts[i] == "(" then
      match OrAt(ts, i + 1)
      case Thrown => Thrown
      case Done(inner, next) => if next < |ts| && ts[next] == ")" then Done(inner, next + 1) else Thrown
    else
      assert ts[i] in ts;
      Done(Leaf(ts[i]), i + 1)
  }

  lemma {:induction false} TokensSolid(s: string)
    ensures Tokens(s).Some? ==> Solid(Tokens(s).value)
    decreases |s|
  {
    var t := SkipSpaces(s);
    if t != "" && TokenLen(t).Some? {
      TokensSolid(t[TokenLen(t).value..]);
    }
  }

  /** `parseExpression`: an expression that uses up every token, or undefined. */
  function Parse(source: string): Option<Expr> {
    match Tokens(source)
    case None => None
    case Some(ts) =>
      TokensSolid(source);
      if ts == [] then None
      else
        match OrAt(ts, 0)
        case Thrown => None
        case Done(e, next) => if next == |ts| then Some(e) else None
  }

  // ----- The parser over the stream -----

  class TokenStream {
    const tokens: seq<string>
    var index: nat

    constructor (tokens: seq<string>)
      ensures this.tokens == tokens && index == 0 && fresh(this)
    {
      this.tokens := tokens;
      index := 0;
    }

    predicate Valid()
      reads this
    {
      Solid(tokens) && index <= |tokens|
    }

    function Peek(): Option<string>
      reads this
      requires Valid()
    {
      if index < |tokens| then Some(tokens[index]) else None
    }

    predicate AtEnd()
      reads this
    {
      index >= |tokens|
    }

    /** The next token, or a throw at the end. */
    method Next() returns (token: Option<string>)
      requires Valid()
      modifies this
      ensures Valid() && token == old(Peek())
      ensures index == old(index) + if token.Some? then 1 else 0
      ensures token.Some? ==> token.value != ""
    {
      if index == |tokens| {
        return None;
      }
      token := Some(tokens[index]);
      assert tokens[index] in tokens;
      index := index + 1;
    }

    /** The stream stands after a successful parse; after a throw the caller abandons it. */
    ghost predicate Returned(parsed: Parsed, r: Option<Expr>)
      reads this
    {
      Valid() && match parsed
                 case Thrown => r == None
                 case Done(e, next) => r == Some(e) && index == next
    }

    method ParseOperand() returns (r: Option<Expr>)
      requires Valid()
      modifies this
      ensures Returned(OperandAt(tokens, old(index)), r)
      decreases |tokens| - index, 0
    {
      var token := Next();
      if token.None? {
        return None;
      }
      if token.value != "(" {
        return Some(Leaf(token.value));
      }
      r := ParseOr();
      if r.None? {
        return None;
      }
      var closing := Next();
      if closing != Some(")") {
        return None;
      }
    }

    method ParseComparison() returns (r: Option<Expr>)
      requires Valid()
      modifies this
      ensures Returned(ComparisonAt(tokens, old(index)), r)
      decreases |tokens| - index, 1
    {
      var left := ParseOperand();
      if left.None? {
        return None;
      }
      var op := Peek();
      if op.None? || op.value !in COMPARE_OPS {
        return left;
      }
      var _ := Next();
      var right := ParseOperand();
      if right.None? {
        return None;
      }
      return Some(Compare(op.value, left.value, right.value));
    }

    method ParseNot() returns (r: Option<Expr>)
      requires Valid()
      modifies this
      ensures Returned(NotAt(tokens, old(index)), r)
      decreases |tokens| - index, 2
    {
      if Peek() == Some("!") {
        var _ := Next();
        r := ParseNot();
        if r.Some? {
          r := Some(Not(r.value));
        }
        return;
      }
      r := ParseComparison();
    }

    method ParseAnd() returns (r: Option<Expr>)
      requires Valid()
      modifies this
      ensures Returned(AndAt(tokens, old(index)), r)
      decreases |tokens| - index, 3
    {
      r := ParseNot();
      if r.None? {
        return;
      }
      while Peek() == Some("&&")
        invariant Valid() && index > old(index) && r.Some?
        invariant AndAt(tokens, old(index)) == AndRest(tokens, index, r.value)
        decreases |tokens| - index
      {
        var _ := Next();
        var right := ParseNot();
        if right.None? {
          return None;
        }
        r := Some(And(r.value, right.value));
      }
    }

    method ParseOr() returns (r: Option<Expr>)
      requires Valid()
      modifies this
      ensures Returned(OrAt(tokens, old(index)), r)
      decreases |tokens| - index, 5
    {
      r := ParseAnd();
      if r.None? {
        return;
      }
      while Peek() == Some("||")
        invariant Valid() && index > old(index) && r.Some?
        invariant OrAt(tokens, old(index)) == OrRest(tokens, index, r.value)
        decreases |tokens| - index
      {
        var _ := Next();
        var right := ParseAnd();
        if right.None? {
          return None;
        }
        r := Some(Or(r.value, right.value));
      }
    }
  }

  method ParseExpression(source: string) returns (r: Option<Expr>)
    ensures r == Parse(source)
  {
    var tokens := Tokenize(source);
    if tokens.None? || tokens.value == [] {
      return None;
    }
    TokensSolid(source);
    var stream := new TokenStream(tokens.value);
    r := stream.ParseOr();
    if r.Some? && !stream.AtEnd() {
      r := None;
    }
  }
}
