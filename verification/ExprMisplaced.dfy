/** Which texts parse to a tree that is not well-formed, told from their tokens alone: those in which an operator or a
    closing parenthesis stands where an operand has to start. */
module ExprMisplaced {
  import opened Wrappers
  import opened Lines
  import opened ExprTokens
  import opened ExprParser
  import opened ExprGrammar
  import opened ExprPrinter
  import opened ExprRoundTrip
  import opened ExprSoundness

  predicate IsBinary(token: string) {
    token in COMPARE_OPS || token == "&&" || token == "||"
  }

  /** After this token an operand has to start. */
  predicate Opens(token: string) {
    IsBinary(token) || token == "!" || token == "("
  }

  predicate OperandStarts(ts: seq<string>, i: nat)
    requires i < |ts|
  {
    i == 0 || Opens(ts[i - 1])
  }

  /** A binary operator or `)` where an operand has to start, or `!` directly after a comparison operator. */
  predicate MisplacedAt(ts: seq<string>, i: nat)
    requires i < |ts|
  {
    || ((IsBinary(ts[i]) || ts[i] == ")") && OperandStarts(ts, i))
    || (ts[i] == "!" && i > 0 && ts[i - 1] in COMPARE_OPS)
  }

  predicate Misplaced(ts: seq<string>) {
    exists i | 0 <= i < |ts| :: MisplacedAt(ts, i)
  }

  /** The tree `e` read from the tokens `i` to `j` has an operator operand exactly when one of them is misplaced; if
      none is, no operand is missing after the last of them. */
  ghost predicate Judged(ts: seq<string>, i: nat, j: nat, e: Expr) {
    && i < j <= |ts|
    && (HasOperatorOperand(e) <==> exists k | i <= k < j :: MisplacedAt(ts, k))
    && (!HasOperatorOperand(e) ==> !Opens(ts[j - 1]))
  }

  /** Two trees joined by a binary operator: it is not misplaced itself unless the left tree is already misread. */
  lemma JudgedBinary(ts: seq<string>, i: nat, m: nat, j: nat, l: Expr, r: Expr, e: Expr)
    requires m < |ts| && Judged(ts, i, m, l) && Judged(ts, m + 1, j, r) && IsBinary(ts[m])
    requires HasOperatorOperand(e) <==> HasOperatorOperand(l) || HasOperatorOperand(r)
    ensures Judged(ts, i, j, e)
  {
    hide HasOperatorOperand, Opens;
    if HasOperatorOperand(l) {
      var k :| i <= k < m && MisplacedAt(ts, k);
    } else {
      assert !MisplacedAt(ts, m);
      if HasOperatorOperand(r) {
        var k :| m + 1 <= k < j && MisplacedAt(ts, k);
      }
    }
  }

  lemma LeafIsOperator(token: string)
    requires token != ""
    ensures HasOperatorOperand(Leaf(token)) <==> token in OPERATORS
  {
    if token in OPERATORS {
      OperatorLeaf(token);
    } else {
      JoinOfSplit(token, '.');
    }
  }

  lemma LeafJudged(ts: seq<string>, i: nat)
    requires Solid(ts) && i < |ts| && ts[i] != "(" && OperandStarts(ts, i)
    requires ts[i] == "!" ==> i > 0 && ts[i - 1] in COMPARE_OPS
    ensures ts[i] != "" && Judged(ts, i, i + 1, Leaf(ts[i]))
  {
    hide Leaf, HasOperatorOperand;
    assert ts[i] in ts;
    LeafIsOperator(ts[i]);
    if ts[i] in OPERATORS {
      assert MisplacedAt(ts, i);
    }
  }

  lemma ParenJudged(ts: seq<string>, i: nat, m: nat, inner: Expr)
    requires m < |ts| && Judged(ts, i + 1, m, inner) && ts[i] == "(" && ts[m] == ")"
    ensures Judged(ts, i, m + 1, inner)
  {
    hide HasOperatorOperand;
    assert !MisplacedAt(ts, i);
    if HasOperatorOperand(inner) {
      var k :| i + 1 <= k < m && MisplacedAt(ts, k);
    } else {
      assert !MisplacedAt(ts, m);
    }
  }

  lemma NegationJudged(ts: seq<string>, i: nat, j: nat, x: Expr)
    requires i < |ts| && Judged(ts, i + 1, j, x) && ts[i] == "!" && (i > 0 ==> ts[i - 1] !in COMPARE_OPS)
    ensures Judged(ts, i, j, Not(x))
  {
    assert !MisplacedAt(ts, i);
    assert HasOperatorOperand(Not(x)) == HasOperatorOperand(x);
    hide HasOperatorOperand;
    if HasOperatorOperand(x) {
      var k :| i + 1 <= k < j && MisplacedAt(ts, k);
    }
  }

  // ----- What each level of the parser reads -----

  lemma {:induction false} OperandJudged(ts: seq<string>, i: nat)
    requires Solid(ts) && i < |ts| && OperandStarts(ts, i)
    requires ts[i] == "!" ==> i > 0 && ts[i - 1] in COMPARE_OPS
    ensures var p := OperandAt(ts, i); p.Done? ==> Judged(ts, i, p.next, p.expr)
    decreases |ts| - i, 0
  {
    hide Judged, Leaf, OrAt;
    if ts[i] != "(" {
      LeafJudged(ts, i);
    } else if i + 1 < |ts| {
      OrJudged(ts, i + 1);
      var inner := OrAt(ts, i + 1);
      if inner.Done? && inner.next < |ts| && ts[inner.next] == ")" {
        ParenJudged(ts, i, inner.next, inner.expr);
      }
    } else {
      NothingParses(ts);
    }
  }

  lemma NothingParses(ts: seq<string>)
    requires Solid(ts)
    ensures OrAt(ts, |ts|) == Thrown
  {
  }

  lemma {:induction false} ComparisonJudged(ts: seq<string>, i: nat)
    requires Solid(ts) && i < |ts| && OperandStarts(ts, i) && ts[i] != "!"
    ensures var p := ComparisonAt(ts, i); p.Done? ==> Judged(ts, i, p.next, p.expr)
    decreases |ts| - i, 1
  {
    hide Judged, OperandAt;
    OperandJudged(ts, i);
    var left := OperandAt(ts, i);
    if left.Done? && left.next < |ts| && ts[left.next] in COMPARE_OPS {
      var m := left.next;
      if m + 1 < |ts| {
        OperandJudged(ts, m + 1);
        var right := OperandAt(ts, m + 1);
        if right.Done? {
          JudgedBinary(ts, i, m, right.next, left.expr, right.expr, Compare(ts[m], left.expr, right.expr));
        }
      } else {
        assert OperandAt(ts, |ts|) == Thrown by { NoOperand(ts); }
      }
    }
  }

  lemma NoOperand(ts: seq<string>)
    requires Solid(ts)
    ensures OperandAt(ts, |ts|) == Thrown && NotAt(ts, |ts|) == Thrown && AndAt(ts, |ts|) == Thrown
  {
  }

  lemma {:induction false} NotJudged(ts: seq<string>, i: nat)
    requires Solid(ts) && i < |ts| && OperandStarts(ts, i) && (i > 0 ==> ts[i - 1] !in COMPARE_OPS)
    ensures var p := NotAt(ts, i); p.Done? ==> Judged(ts, i, p.next, p.expr)
    decreases |ts| - i, 2
  {
    hide Judged, ComparisonAt;
    if ts[i] != "!" {
      ComparisonJudged(ts, i);
    } else if i + 1 < |ts| {
      NotJudged(ts, i + 1);
      var p := NotAt(ts, i + 1);
      if p.Done? {
        NegationJudged(ts, i, p.next, p.expr);
      }
    } else {
      NoOperand(ts);
    }
  }

  lemma {:induction false} AndRestJudged(ts: seq<string>, start: nat, i: nat, left: Expr)
    requires Solid(ts) && Judged(ts, start, i, left) && i <= |ts|
    ensures var p := AndRest(ts, i, left); p.Done? ==> Judged(ts, start, p.next, p.expr)
    decreases |ts| - i, 4
  {
    hide Judged, NotAt;
    if i < |ts| && ts[i] == "&&" {
      if i + 1 < |ts| {
        NotJudged(ts, i + 1);
        var p := NotAt(ts, i + 1);
        if p.Done? {
          JudgedBinary(ts, start, i, p.next, left, p.expr, And(left, p.expr));
          AndRestJudged(ts, start, p.next, And(left, p.expr));
        }
      } else {
        NoOperand(ts);
      }
    }
  }

  lemma {:induction false} AndJudged(ts: seq<string>, i: nat)
    requires Solid(ts) && i < |ts| && OperandStarts(ts, i) && (i > 0 ==> ts[i - 1] !in COMPARE_OPS)
    ensures var p := AndAt(ts, i); p.Done? ==> Judged(ts, i, p.next, p.expr)
    decreases |ts| - i, 3
  {
    hide Judged, NotAt, AndRest;
    NotJudged(ts, i);
    if NotAt(ts, i).Done? {
      AndRestJudged(ts, i, NotAt(ts, i).next, NotAt(ts, i).expr);
    }
  }

  lemma {:induction false} OrRestJudged(ts: seq<string>, start: nat, i: nat, left: Expr)
    requires Solid(ts) && Judged(ts, start, i, left) && i <= |ts|
    ensures var p := OrRest(ts, i, left); p.Done? ==> Judged(ts, start, p.next, p.expr)
    decreases |ts| - i, 6
  {
    hide Judged, AndAt;
    if i < |ts| && ts[i] == "||" {
      if i + 1 < |ts| {
        AndJudged(ts, i + 1);
        var p := AndAt(ts, i + 1);
        if p.Done? {
          JudgedBinary(ts, start, i, p.next, left, p.expr, Or(left, p.expr));
          OrRestJudged(ts, start, p.next, Or(left, p.expr));
        }
      } else {
        NoOperand(ts);
      }
    }
  }

  lemma {:induction false} OrJudged(ts: seq<string>, i: nat)
    requires Solid(ts) && i < |ts| && OperandStarts(ts, i) && (i > 0 ==> ts[i - 1] !in COMPARE_OPS)
    ensures var p := OrAt(ts, i); p.Done? ==> Judged(ts, i, p.next, p.expr)
    decreases |ts| - i, 5
  {
    hide Judged, AndAt, OrRest;
    AndJudged(ts, i);
    if AndAt(ts, i).Done? {
      OrRestJudged(ts, i, AndAt(ts, i).next, AndAt(ts, i).expr);
    }
  }

  // ----- The exact conditions -----

  /** "Only well-formed trees are parsed" is false; it holds of exactly those texts none of whose tokens is
      misplaced. */
  lemma WellFormedExactlyWhenNothingMisplaced(source: string)
    requires Parse(source).Some?
    ensures WellFormed(Parse(source).value) <==> !Misplaced(Tokens(source).value)
  {
    hide WellFormed, HasOperatorOperand, Tokens, OrAt, Print, Spaced, GapsFor;
    ParsedExactlyWhenNoOperatorOperand(source, []);
    TokensSolid(source);
    OrJudged(Tokens(source).value, 0);
  }

  /** "An identifier path parses as that path" is false; it does exactly when its first segment does not begin with
      `true` or `false`, which the token pattern tries before identifiers. */
  lemma PathParsesExactly(segments: seq<string>)
    requires segments != [] && forall s | s in segments :: IsIdent(s)
    ensures Parse(Join(segments, '.')) == Some(Path(segments)) <==>
            !("true" <= segments[0]) && !("false" <= segments[0])
  {
    hide Parse;
    var e := Path(segments);
    assert segments[0] in segments;
    assert !HasOperatorOperand(e);
    assert Print(e, 0) == Body(e) == [Join(segments, '.')];
    if WellFormed(e) {
      var gaps := ["", ""];
      assert Spaced(Print(e, 0), gaps) == Join(segments, '.');
      RoundTrip(e, gaps);
    }
    if Parse(Join(segments, '.')) == Some(e) {
      ParsedExactlyWhenNoOperatorOperand(Join(segments, '.'), []);
    }
  }
}
