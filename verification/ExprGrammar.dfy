/** The grammar of the rule-condition language, and the proof that the parser accepts exactly what it derives. */
module ExprGrammar {
  import opened Wrappers
  import opened Lines
  import opened ExprTokens
  import opened ExprParser

  // ----- Trees that have a text -----

  predicate IsIdent(s: string) {
    s != "" && IsIdentStart(s[0]) && forall i | 0 <= i < |s| :: IsIdentPart(s[i])
  }

  /** A dotted path of identifiers; its first may not begin with `true` or `false`, which the token pattern would
      split off. */
  predicate IsPath(segments: seq<string>) {
    && segments != []
    && (forall s | s in segments :: IsIdent(s))
    && !("true" <= segments[0]) && !("false" <= segments[0])
  }

  predicate IsLiteral(l: Literal) {
    match l
    case Str(text) => '"' !in text || '\'' !in text
    case Num(numeral) => IsNumeral(numeral)
    case Bool(_) => true
  }

  predicate WellFormed(e: Expr) {
    match e
    case Path(segments) => IsPath(segments)
    case Lit(l) => IsLiteral(l)
    case Compare(op, l, r) => op in COMPARE_OPS && WellFormed(l) && WellFormed(r)
    case Not(x) => WellFormed(x)
    case And(l, r) => WellFormed(l) && WellFormed(r)
    case Or(l, r) => WellFormed(l) && WellFormed(r)
  }

  /** The precedence levels: `||`, `&&`, `!`, comparison, operand. */
  function Level(e: Expr): nat {
    match e
    case Or(_, _) => 0
    case And(_, _) => 1
    case Not(_) => 2
    case Compare(_, _, _) => 3
    case _ => 4
  }

  // ----- The grammar -----

  /** The tokens from `i` to `j` are a way to write `e` where an expression of at least this level is expected: `e` in
      parentheses, which are always allowed, or an operand token, or the operator of `e` between its parts, each written
      in turn at the level it needs. */
  ghost predicate Spells(ts: seq<string>, i: nat, j: nat, e: Expr, level: nat)
    decreases j - i, 2
  {
    && i < j <= |ts|
    && (|| (i + 1 < j - 1 && ts[i] == "(" && ts[j - 1] == ")" && Spells(ts, i + 1, j - 1, e, 0))
        || (level <= Level(e) && Bare(ts, i, j, e)))
  }

  /** Written with its own operator, not in parentheses. */
  ghost predicate Bare(ts: seq<string>, i: nat, j: nat, e: Expr)
    decreases j - i, 1
  {
    && i < j <= |ts|
    && match e
       case Path(_) => Operand(ts, i, j, e)
       case Lit(_) => Operand(ts, i, j, e)
       case Not(x) => ts[i] == "!" && Spells(ts, i + 1, j, x, 2)
       case Compare(op, l, r) => op in COMPARE_OPS && Joined(ts, i, j, l, 4, op, r, 4)
       case And(l, r) => Joined(ts, i, j, l, 1, "&&", r, 2)
       case Or(l, r) => Joined(ts, i, j, l, 0, "||", r, 1)
  }

  /** The operator between two parts, each written at its level. */
  ghost predicate Joined(ts: seq<string>, i: nat, j: nat, l: Expr, a: nat, op: string, r: Expr, b: nat)
    requires i < j <= |ts|
    decreases j - i, 0
  {
    exists k | i < k < j :: ts[k] == op && Spells(ts, i, k, l, a) && Spells(ts, k + 1, j, r, b)
  }

  predicate Operand(ts: seq<string>, i: nat, j: nat, e: Expr)
    requires i < j <= |ts|
  {
    j == i + 1 && ts[i] != "" && ts[i] != "(" && Leaf(ts[i]) == e
  }

  lemma SpelledLower(ts: seq<string>, i: nat, j: nat, e: Expr, level: nat, lower: nat)
    requires Spells(ts, i, j, e, level) && lower <= level
    ensures Spells(ts, i, j, e, lower)
  {
  }

  lemma JoinedSpells(ts: seq<string>, i: nat, k: nat, j: nat, l: Expr, a: nat, op: string, r: Expr, b: nat)
    requires k < |ts| && ts[k] == op && Spells(ts, i, k, l, a) && Spells(ts, k + 1, j, r, b)
    ensures i < j <= |ts| && Joined(ts, i, j, l, a, op, r, b)
  {
  }

  lemma BareSpells(ts: seq<string>, i: nat, j: nat, e: Expr)
    requires Bare(ts, i, j, e)
    ensures Spells(ts, i, j, e, Level(e))
  {
  }

  // ----- What the parser has read -----

  /** The level's parse started at `i` has read exactly `e`, ending at `j`; the two looping levels are about to
      look for their operator. */
  ghost predicate Reads(ts: seq<string>, i: nat, j: nat, e: Expr, level: nat)
    requires Solid(ts) && i <= |ts| && j <= |ts|
  {
    if level == 0 then OrAt(ts, i) == OrRest(ts, j, e)
    else if level == 1 then AndAt(ts, i) == AndRest(ts, j, e)
    else if level == 2 then NotAt(ts, i) == Done(e, j)
    else if level == 3 then ComparisonAt(ts, i) == Done(e, j)
    else OperandAt(ts, i) == Done(e, j)
  }

  /** The token at `j` cannot extend an expression of this level. */
  ghost predicate Ends(ts: seq<string>, j: nat, level: nat) {
    && (j < |ts| && level <= 3 ==> ts[j] !in COMPARE_OPS)
    && (j < |ts| && level == 0 ==> ts[j] != "&&")
  }

  lemma ReadsOneLevelUp(ts: seq<string>, i: nat, j: nat, e: Expr, level: nat)
    requires Solid(ts) && i < |ts| && j <= |ts| && level < 4
    requires Reads(ts, i, j, e, level + 1) && Ends(ts, j, level)
    requires level == 2 ==> ts[i] != "!"
    ensures Reads(ts, i, j, e, level)
  {
  }

  lemma {:induction false} ReadsAtLevel(ts: seq<string>, i: nat, j: nat, e: Expr, from: nat, level: nat)
    requires Solid(ts) && i < |ts| && j <= |ts| && level <= from <= 4
    requires Reads(ts, i, j, e, from) && Ends(ts, j, level)
    requires level <= 2 < from ==> ts[i] != "!"
    ensures Reads(ts, i, j, e, level)
    decreases from - level
  {
    if level < from {
      ReadsOneLevelUp(ts, i, j, e, from - 1);
      ReadsAtLevel(ts, i, j, e, from - 1, level);
    }
  }

  // One reading step per form of tree, from the readings of its parts.

  lemma ParenReads(ts: seq<string>, i: nat, j: nat, e: Expr)
    requires Solid(ts) && i < j < |ts| && ts[i] == "(" && ts[j] == ")"
    requires Reads(ts, i + 1, j, e, 0)
    ensures Reads(ts, i, j + 1, e, 4)
  {
  }

  lemma CompareReads(ts: seq<string>, i: nat, k: nat, j: nat, op: string, l: Expr, r: Expr)
    requires Solid(ts) && i <= k < j <= |ts| && ts[k] == op && op in COMPARE_OPS
    requires Reads(ts, i, k, l, 4) && Reads(ts, k + 1, j, r, 4)
    ensures Reads(ts, i, j, Compare(op, l, r), 3)
  {
  }

  lemma NotReads(ts: seq<string>, i: nat, j: nat, x: Expr)
    requires Solid(ts) && i < j <= |ts| && ts[i] == "!" && Reads(ts, i + 1, j, x, 2)
    ensures Reads(ts, i, j, Not(x), 2)
  {
  }

  lemma AndReads(ts: seq<string>, i: nat, k: nat, j: nat, l: Expr, r: Expr)
    requires Solid(ts) && i <= k < j <= |ts| && ts[k] == "&&"
    requires Reads(ts, i, k, l, 1) && Reads(ts, k + 1, j, r, 2)
    ensures Reads(ts, i, j, And(l, r), 1)
  {
  }

  lemma OrReads(ts: seq<string>, i: nat, k: nat, j: nat, l: Expr, r: Expr)
    requires Solid(ts) && i <= k < j <= |ts| && ts[k] == "||" && (j < |ts| ==> ts[j] != "&&")
    requires Reads(ts, i, k, l, 0) && Reads(ts, k + 1, j, r, 1)
    ensures Reads(ts, i, j, Or(l, r), 0)
  {
  }

  // ----- Everything the grammar derives is parsed -----

  lemma BangIsNoOperand()
    ensures !WellFormed(Leaf("!"))
  {
    SplitWithoutSeparator("!", '.');
    assert Run("!", IsDigit) == 0 && "!"[0..] == "!";
    assert Leaf("!") == Path(["!"]) && "!" in ["!"];
  }

  lemma OperandReads(ts: seq<string>, i: nat, j: nat, e: Expr)
    requires Solid(ts) && i < j <= |ts| && Operand(ts, i, j, e) && WellFormed(e)
    ensures Reads(ts, i, j, e, 4) && ts[i] != "!"
  {
    BangIsNoOperand();
  }

  /** Above the negation level nothing is written with a `!` first. */
  lemma {:induction false} NoLeadingNot(ts: seq<string>, i: nat, j: nat, e: Expr, level: nat)
    requires Solid(ts) && WellFormed(e) && Spells(ts, i, j, e, level) && (level > 2 || Level(e) > 2)
    ensures ts[i] != "!"
    decreases j - i
  {
    if ts[i] == "!" {
      match e
      case Path(_) => OperandReads(ts, i, j, e);
      case Lit(_) => OperandReads(ts, i, j, e);
      case Compare(op, l, r) =>
        assert Bare(ts, i, j, e) && Joined(ts, i, j, l, 4, op, r, 4);
        var k :| i < k < j && ts[k] == op && Spells(ts, i, k, l, 4) && Spells(ts, k + 1, j, r, 4);
        NoLeadingNot(ts, i, k, l, 4);
      case _ =>
    }
  }

  /** Wherever tokens spell a well-formed tree and the next token cannot extend it, the parser of that level reads
      exactly that tree and stops after it. */
  lemma {:induction false} SpelledReads(ts: seq<string>, i: nat, j: nat, e: Expr, level: nat)
    requires Solid(ts) && WellFormed(e) && level <= 4 && Spells(ts, i, j, e, level) && Ends(ts, j, level)
    ensures Reads(ts, i, j, e, level)
    decreases j - i, 1
  {
    hide Reads, Solid, WellFormed, Operand;
    if i + 1 < j - 1 && ts[i] == "(" && ts[j - 1] == ")" && Spells(ts, i + 1, j - 1, e, 0) {
      SpelledReads(ts, i + 1, j - 1, e, 0);
      ParenEnds(ts, i + 1, j - 1, e);
      ParenReads(ts, i, j - 1, e);
      ReadsAtLevel(ts, i, j, e, 4, level);
    } else {
      BodyReads(ts, i, j, e);
      if level <= 2 < Level(e) {
        NoLeadingNot(ts, i, j, e, level);
      }
      ReadsAtLevel(ts, i, j, e, Level(e), level);
    }
  }

  lemma ParenEnds(ts: seq<string>, i: nat, j: nat, e: Expr)
    requires Solid(ts) && i <= j < |ts| && ts[j] == ")" && Reads(ts, i, j, e, 0)
    ensures OrAt(ts, i) == Done(e, j)
  {
  }

  lemma {:induction false} BodyReads(ts: seq<string>, i: nat, j: nat, e: Expr)
    requires Solid(ts) && WellFormed(e) && Bare(ts, i, j, e) && Ends(ts, j, Level(e))
    ensures Reads(ts, i, j, e, Level(e))
    decreases j - i, 0
  {
    hide Reads, Solid, Spells, Operand;
    match e
    case Path(_) => OperandReads(ts, i, j, e);
    case Lit(_) => OperandReads(ts, i, j, e);
    case Not(x) =>
      SpelledWithin(ts, i + 1, j, x, 2);
      SpelledReads(ts, i + 1, j, x, 2);
      NotReads(ts, i, j, x);
    case Compare(op, l, r) =>
      var k :| i < k < j && ts[k] == op && Spells(ts, i, k, l, 4) && Spells(ts, k + 1, j, r, 4);
      SpelledWithin(ts, k + 1, j, r, 4);
      SpelledReads(ts, i, k, l, 4);
      SpelledReads(ts, k + 1, j, r, 4);
      CompareReads(ts, i, k, j, op, l, r);
    case And(l, r) =>
      var k :| i < k < j && ts[k] == "&&" && Spells(ts, i, k, l, 1) && Spells(ts, k + 1, j, r, 2);
      SpelledWithin(ts, k + 1, j, r, 2);
      SpelledReads(ts, i, k, l, 1);
      SpelledReads(ts, k + 1, j, r, 2);
      AndReads(ts, i, k, j, l, r);
    case Or(l, r) =>
      var k :| i < k < j && ts[k] == "||" && Spells(ts, i, k, l, 0) && Spells(ts, k + 1, j, r, 1);
      SpelledWithin(ts, k + 1, j, r, 1);
      SpelledReads(ts, i, k, l, 0);
      SpelledReads(ts, k + 1, j, r, 1);
      OrReads(ts, i, k, j, l, r);
  }

  lemma SpelledWithin(ts: seq<string>, i: nat, j: nat, e: Expr, level: nat)
    requires Spells(ts, i, j, e, level)
    ensures i < j <= |ts|
  {
  }

  // ----- Everything parsed is derived by the grammar -----

  lemma {:induction false} OperandSpelled(ts: seq<string>, i: nat)
    requires Solid(ts) && i <= |ts|
    ensures var p := OperandAt(ts, i); p.Done? ==> Spells(ts, i, p.next, p.expr, 4)
    decreases |ts| - i, 0
  {
    hide Leaf;
    if i < |ts| {
      if ts[i] == "(" {
        OrSpelled(ts, i + 1);
      } else {
        assert ts[i] in ts;
        LeafLevel(ts[i]);
      }
    }
  }

  lemma LeafLevel(token: string)
    requires token != ""
    ensures Level(Leaf(token)) == 4
  {
  }

  lemma {:induction false} ComparisonSpelled(ts: seq<string>, i: nat)
    requires Solid(ts) && i <= |ts|
    ensures var p := ComparisonAt(ts, i); p.Done? ==> Spells(ts, i, p.next, p.expr, 3)
    decreases |ts| - i, 1
  {
    hide OperandAt;
    OperandSpelled(ts, i);
    var left := OperandAt(ts, i);
    if left.Done? {
      SpelledLower(ts, i, left.next, left.expr, 4, 3);
      if left.next < |ts| && ts[left.next] in COMPARE_OPS {
        OperandSpelled(ts, left.next + 1);
        var right := OperandAt(ts, left.next + 1);
        if right.Done? {
          JoinedSpells(ts, i, left.next, right.next, left.expr, 4, ts[left.next], right.expr, 4);
          BareSpells(ts, i, right.next, Compare(ts[left.next], left.expr, right.expr));
        }
      }
    }
  }

  lemma {:induction false} NotSpelled(ts: seq<string>, i: nat)
    requires Solid(ts) && i <= |ts|
    ensures var p := NotAt(ts, i); p.Done? ==> Spells(ts, i, p.next, p.expr, 2)
    decreases |ts| - i, 2
  {
    hide ComparisonAt;
    if i < |ts| && ts[i] == "!" {
      NotSpelled(ts, i + 1);
    } else {
      ComparisonSpelled(ts, i);
      var p := ComparisonAt(ts, i);
      if p.Done? {
        SpelledLower(ts, i, p.next, p.expr, 3, 2);
      }
    }
  }

  lemma {:induction false} AndRestSpelled(ts: seq<string>, start: nat, i: nat, left: Expr)
    requires Solid(ts) && i <= |ts| && Spells(ts, start, i, left, 1)
    ensures var p := AndRest(ts, i, left); p.Done? ==> Spells(ts, start, p.next, p.expr, 1)
    decreases |ts| - i, 4
  {
    hide NotAt;
    if i < |ts| && ts[i] == "&&" {
      NotSpelled(ts, i + 1);
      var right := NotAt(ts, i + 1);
      if right.Done? {
        JoinedSpells(ts, start, i, right.next, left, 1, "&&", right.expr, 2);
        BareSpells(ts, start, right.next, And(left, right.expr));
        AndRestSpelled(ts, start, right.next, And(left, right.expr));
      }
    }
  }

  lemma {:induction false} AndSpelled(ts: seq<string>, i: nat)
    requires Solid(ts) && i <= |ts|
    ensures var p := AndAt(ts, i); p.Done? ==> Spells(ts, i, p.next, p.expr, 1)
    decreases |ts| - i, 3
  {
    hide NotAt, AndRest;
    NotSpelled(ts, i);
    var p := NotAt(ts, i);
    if p.Done? {
      SpelledLower(ts, i, p.next, p.expr, 2, 1);
      AndRestSpelled(ts, i, p.next, p.expr);
    }
  }

  lemma {:induction false} OrRestSpelled(ts: seq<string>, start: nat, i: nat, left: Expr)
    requires Solid(ts) && i <= |ts| && Spells(ts, start, i, left, 0)
    ensures var p := OrRest(ts, i, left); p.Done? ==> Spells(ts, start, p.next, p.expr, 0)
    decreases |ts| - i, 6
  {
    hide AndAt;
    if i < |ts| && ts[i] == "||" {
      AndSpelled(ts, i + 1);
      var right := AndAt(ts, i + 1);
      if right.Done? {
        JoinedSpells(ts, start, i, right.next, left, 0, "||", right.expr, 1);
        BareSpells(ts, start, right.next, Or(left, right.expr));
        OrRestSpelled(ts, start, right.next, Or(left, right.expr));
      }
    }
  }

  lemma {:induction false} OrSpelled(ts: seq<string>, i: nat)
    requires Solid(ts) && i <= |ts|
    ensures var p := OrAt(ts, i); p.Done? ==> Spells(ts, i, p.next, p.expr, 0)
    decreases |ts| - i, 5
  {
    hide AndAt, OrRest;
    AndSpelled(ts, i);
    var p := AndAt(ts, i);
    if p.Done? {
      SpelledLower(ts, i, p.next, p.expr, 1, 0);
      OrRestSpelled(ts, i, p.next, p.expr);
    }
  }

  // ----- The parser is the grammar -----

  /** A text parses to a well-formed tree exactly when its tokens, all of them, are a way to write that tree. */
  lemma ParsesExactlyTheGrammar(source: string, e: Expr)
    requires WellFormed(e)
    ensures Parse(source) == Some(e) <==>
            Tokens(source).Some? && Spells(Tokens(source).value, 0, |Tokens(source).value|, e, 0)
  {
    hide Tokens, Spells, WellFormed, OrAt;
    TokensSolid(source);
    if Tokens(source).Some? {
      var ts := Tokens(source).value;
      OrSpelled(ts, 0);
      if Spells(ts, 0, |ts|, e, 0) {
        SpelledWithin(ts, 0, |ts|, e, 0);
        SpelledReads(ts, 0, |ts|, e, 0);
        NothingFollows(ts, e);
      }
    }
  }

  lemma NothingFollows(ts: seq<string>, e: Expr)
    requires Solid(ts) && ts != [] && Reads(ts, 0, |ts|, e, 0)
    ensures OrAt(ts, 0) == Done(e, |ts|)
  {
  }

  /** Whatever a text parses to, well-formed or not, its tokens are a way to write it: none is lost or added. */
  lemma ParsedIsSpelled(source: string)
    requires Parse(source).Some?
    ensures Tokens(source).Some? && Spells(Tokens(source).value, 0, |Tokens(source).value|, Parse(source).value, 0)
  {
    hide Tokens, Spells, OrAt;
    TokensSolid(source);
    OrSpelled(Tokens(source).value, 0);
  }
}
