/** What the parser accepts. It takes any token but `(` as an operand, so an operator can stand where a path is
    expected; this is the only way a parsed tree can fail to be well-formed. */
module ExprSoundness {
  import opened Wrappers
  import opened Lines
  import opened ExprTokens
  import opened ExprParser
  import opened ExprGrammar
  import opened ExprPrinter
  import opened ExprRoundTrip

  const OPERATORS := ["==", "!=", "<=", ">=", "&&", "||", "<", ">", "!", "(", ")"]

  /** Some operand of the tree is an operator or parenthesis token read as a path. */
  predicate HasOperatorOperand(e: Expr) {
    match e
    case Path(segments) => |segments| == 1 && segments[0] in OPERATORS
    case Lit(_) => false
    case Compare(_, l, r) => HasOperatorOperand(l) || HasOperatorOperand(r)
    case Not(x) => HasOperatorOperand(x)
    case And(l, r) => HasOperatorOperand(l) || HasOperatorOperand(r)
    case Or(l, r) => HasOperatorOperand(l) || HasOperatorOperand(r)
  }

  /** Every leaf is well-formed or an operator token. */
  predicate Sane(e: Expr) {
    match e
    case Path(segments) => IsPath(segments) || HasOperatorOperand(e)
    case Lit(l) => IsLiteral(l)
    case Compare(op, l, r) => op in COMPARE_OPS && Sane(l) && Sane(r)
    case Not(x) => Sane(x)
    case And(l, r) => Sane(l) && Sane(r)
    case Or(l, r) => Sane(l) && Sane(r)
  }

  lemma {:induction false} SaneWellFormed(e: Expr)
    requires Sane(e)
    ensures WellFormed(e) <==> !HasOperatorOperand(e)
  {
    match e
    case Path(segments) =>
      if HasOperatorOperand(e) {
        assert segments[0] in segments && !IsIdentStart(segments[0][0]);
      }
    case Lit(_) =>
    case Compare(_, l, r) => SaneWellFormed(l); SaneWellFormed(r);
    case Not(x) => SaneWellFormed(x);
    case And(l, r) => SaneWellFormed(l); SaneWellFormed(r);
    case Or(l, r) => SaneWellFormed(l); SaneWellFormed(r);
  }

  // ----- Tokens -----

  lemma {:induction false} RunWhole(s: string, p: char -> bool, n: nat)
    requires n <= Run(s, p)
    ensures Run(s[..n], p) == n
  {
    if n > 0 {
      assert s[..n][1..] == s[1..][..n - 1];
      RunWhole(s[1..], p, n - 1);
    }
  }

  /** The identifiers of a matched path. */
  lemma {:induction false} MatchedPath(s: string)
    requires s != "" && IsIdentStart(s[0])
    ensures forall x | x in Split(s[..PathLen(s)], '.') :: IsIdent(x)
    ensures Split(s[..PathLen(s)], '.')[0] <= s
    decreases |s|
  {
    var k, n := Run(s, IsIdentPart), PathLen(s);
    var head := s[..k];
    assert '.' !in head;
    assert IsIdent(head);
    if n == k {
      SplitWithoutSeparator(head, '.');
    } else {
      var tail := s[k + 1..];
      MatchedPath(tail);
      SplitAtSeparator(head, '.', tail[..PathLen(tail)]);
      assert s[..n] == head + ['.'] + tail[..PathLen(tail)];
    }
  }

  lemma MatchedNumber(s: string)
    requires NumberLen(s).Some?
    ensures IsNumeral(s[..NumberLen(s).value])
  {
    hide Run;
    var n := NumberLen(s).value;
    var sign := if s[0] == '-' then 1 else 0;
    var whole := Run(s[sign..], IsDigit);
    var p := sign + whole;
    var t := s[..n];
    assert t[sign..] == s[sign..][..n - sign];
    if n == p {
      RunWhole(s[sign..], IsDigit, whole);
    } else {
      assert t[p] == '.';
      RunPrefix(s[sign..], IsDigit, n - sign);
      var fraction := Run(s[p + 1..], IsDigit);
      assert t[p + 1..] == s[p + 1..][..fraction];
      RunWhole(s[p + 1..], IsDigit, fraction);
    }
  }

  lemma {:induction false} RunPrefix(s: string, p: char -> bool, n: nat)
    requires Run(s, p) < n <= |s|
    ensures Run(s[..n], p) == Run(s, p)
  {
    if p(s[0]) {
      assert s[..n][1..] == s[1..][..n - 1];
      RunPrefix(s[1..], p, n - 1);
    }
  }

  lemma MatchedQuoted(s: string)
    requires s != "" && (s[0] == '"' || s[0] == '\'') && QuotedLen(s).Some?
    ensures var t := s[..QuotedLen(s).value]; |t| >= 2 && s[0] !in t[1..|t| - 1]
  {
    var t := s[..QuotedLen(s).value];
    assert forall i | 1 <= i < |t| - 1 :: t[i] == s[1..][i - 1] && t[i] != s[0];
    var body := t[1..|t| - 1];
    assert forall i | 0 <= i < |body| :: body[i] == t[i + 1];
  }

  lemma OperatorLeaf(token: string)
    requires token in OPERATORS
    ensures Leaf(token) == Path([token]) && HasOperatorOperand(Leaf(token))
  {
    SplitWithoutSeparator(token, '.');
    assert Run(token, IsDigit) == 0;
    assert token[0..] == token;
    assert NumberLen(token) == None;
  }

  /** Whatever the tokenizer takes off the front of a text makes a sane leaf. */
  lemma MatchedLeaf(s: string)
    requires TokenLen(s).Some?
    ensures Sane(Leaf(s[..TokenLen(s).value]))
  {
    hide NumberLen, PathLen, QuotedLen, Split;
    var token := s[..TokenLen(s).value];
    if |s| >= 2 && s[..2] in TWO_CHARACTER_OPERATORS {
      OperatorLeaf(token);
    } else if s[0] in "<>!()" {
      assert token == [s[0]];
      OperatorLeaf(token);
    } else if s[0] == '"' || s[0] == '\'' {
      MatchedQuoted(s);
      assert token[0] == s[0];
    } else if NumberLen(s).Some? {
      MatchedNumber(s);
      NumeralStart(token);
    } else if "true" <= s {
      assert token == "true";
    } else if "false" <= s {
      assert token == "false";
    } else {
      MatchedPathLeaf(s);
    }
  }

  lemma MatchedPathLeaf(s: string)
    requires s != "" && IsIdentStart(s[0]) && !("true" <= s) && !("false" <= s)
    ensures Sane(Leaf(s[..PathLen(s)]))
  {
    hide PathLen, Split;
    var token := s[..PathLen(s)];
    MatchedPath(s);
    assert token[0] == s[0];
    assert token <= s;
    assert NumberLen(token) == None;
    PrefixTrans("true", Split(token, '.')[0], s);
    PrefixTrans("false", Split(token, '.')[0], s);
  }

  lemma PrefixTrans(a: string, b: string, c: string)
    ensures a <= b && b <= c ==> a <= c
  {
  }

  lemma {:induction false} TokensSane(s: string)
    requires Tokens(s).Some?
    ensures Solid(Tokens(s).value)
    ensures forall t | t in Tokens(s).value :: t != "" && Sane(Leaf(t))
    decreases |s|
  {
    hide Leaf, TokenLen;
    var t := SkipSpaces(s);
    if t != "" {
      MatchedLeaf(t);
      TokensSane(t[TokenLen(t).value..]);
    }
  }

  // ----- Parsing keeps leaves sane -----

  ghost predicate SaneTokens(ts: seq<string>) {
    Solid(ts) && forall t | t in ts :: t != "" && Sane(Leaf(t))
  }

  lemma {:induction false} OperandSane(ts: seq<string>, i: nat)
    requires SaneTokens(ts) && i <= |ts|
    ensures OperandAt(ts, i).Done? ==> Sane(OperandAt(ts, i).expr)
    decreases |ts| - i, 0
  {
    hide Leaf, Sane;
    if i < |ts| {
      assert ts[i] in ts;
      if ts[i] == "(" {
        OrSane(ts, i + 1);
      }
    }
  }

  lemma {:induction false} ComparisonSane(ts: seq<string>, i: nat)
    requires SaneTokens(ts) && i <= |ts|
    ensures ComparisonAt(ts, i).Done? ==> Sane(ComparisonAt(ts, i).expr)
    decreases |ts| - i, 1
  {
    hide Leaf;
    OperandSane(ts, i);
    if OperandAt(ts, i).Done? && OperandAt(ts, i).next < |ts| {
      OperandSane(ts, OperandAt(ts, i).next + 1);
    }
  }

  lemma {:induction false} NotSane(ts: seq<string>, i: nat)
    requires SaneTokens(ts) && i <= |ts|
    ensures NotAt(ts, i).Done? ==> Sane(NotAt(ts, i).expr)
    decreases |ts| - i, 2
  {
    hide Leaf;
    if i < |ts| && ts[i] == "!" {
      NotSane(ts, i + 1);
    } else {
      ComparisonSane(ts, i);
    }
  }

  lemma {:induction false} AndRestSane(ts: seq<string>, i: nat, left: Expr)
    requires SaneTokens(ts) && i <= |ts| && Sane(left)
    ensures AndRest(ts, i, left).Done? ==> Sane(AndRest(ts, i, left).expr)
    decreases |ts| - i, 4
  {
    hide Leaf;
    if i < |ts| && ts[i] == "&&" {
      NotSane(ts, i + 1);
      if NotAt(ts, i + 1).Done? {
        var Done(right, next) := NotAt(ts, i + 1);
        AndRestSane(ts, next, And(left, right));
      }
    }
  }

  lemma {:induction false} AndSane(ts: seq<string>, i: nat)
    requires SaneTokens(ts) && i <= |ts|
    ensures AndAt(ts, i).Done? ==> Sane(AndAt(ts, i).expr)
    decreases |ts| - i, 3
  {
    hide Leaf, Sane;
    NotSane(ts, i);
    if NotAt(ts, i).Done? {
      AndRestSane(ts, NotAt(ts, i).next, NotAt(ts, i).expr);
    }
  }

  lemma {:induction false} OrRestSane(ts: seq<string>, i: nat, left: Expr)
    requires SaneTokens(ts) && i <= |ts| && Sane(left)
    ensures OrRest(ts, i, left).Done? ==> Sane(OrRest(ts, i, left).expr)
    decreases |ts| - i, 6
  {
    hide Leaf;
    if i < |ts| && ts[i] == "||" {
      AndSane(ts, i + 1);
      if AndAt(ts, i + 1).Done? {
        var Done(right, next) := AndAt(ts, i + 1);
        OrRestSane(ts, next, Or(left, right));
      }
    }
  }

  lemma {:induction false} OrSane(ts: seq<string>, i: nat)
    requires SaneTokens(ts) && i <= |ts|
    ensures OrAt(ts, i).Done? ==> Sane(OrAt(ts, i).expr)
    decreases |ts| - i, 5
  {
    hide Leaf, Sane;
    AndSane(ts, i);
    if AndAt(ts, i).Done? {
      OrRestSane(ts, AndAt(ts, i).next, AndAt(ts, i).expr);
    }
  }

  /** "Only well-formed trees are parsed" is false; a parsed tree is well-formed exactly when no operand of it is an
      operator token, and then printing it in any spacing parses to the same tree again. */
  lemma ParsedExactlyWhenNoOperatorOperand(source: string, gaps: seq<string>)
    requires Parse(source).Some?
    ensures var e := Parse(source).value;
      && (WellFormed(e) <==> !HasOperatorOperand(e))
      && (!HasOperatorOperand(e) && GapsFor(Print(e, 0), gaps) ==> Parse(Spaced(Print(e, 0), gaps)) == Parse(source))
  {
    hide WellFormed, HasOperatorOperand, Print, Spaced, GapsFor, Tokens, OrAt;
    var e := Parse(source).value;
    TokensSane(source);
    OrSane(Tokens(source).value, 0);
    SaneWellFormed(e);
    if !HasOperatorOperand(e) && GapsFor(Print(e, 0), gaps) {
      RoundTrip(e, gaps);
    }
  }

  lemma AloneIsOneToken(t: string)
    requires Lexed(t)
    ensures Tokens(t) == Some([t])
  {
    assert Spaced([t], ["", ""]) == t;
    TokensOfSpaced([t], ["", ""]);
  }

  /** The malformed text `&&` parses, as a path. */
  lemma OperatorAccepted()
    ensures Parse("&&") == Some(Path(["&&"])) && !WellFormed(Path(["&&"]))
  {
    hide Tokens;
    OperatorsLexed();
    AloneIsOneToken("&&");
    OperatorLeaf("&&");
    assert Solid(["&&"]);
    SaneWellFormed(Leaf("&&"));
  }

  /** The identifier `trueish` does not parse: `true` is tried first and leaves `ish` behind. */
  lemma TruePrefixRejected()
    ensures IsIdent("trueish") && Parse("trueish") == None
  {
    TrueishTokens();
    hide Tokens;
    var ts := ["true", "ish"];
    assert Solid(ts);
    assert OrAt(ts, 0) == Done(Lit(Bool(true)), 1);
  }

  lemma TrueishStarts()
    ensures TokenLen("trueish") == Some(4) && SkipSpaces("trueish") == "trueish"
  {
    hide PathLen, QuotedLen;
    var s := "trueish";
    assert NumberLen(s) == None;
    assert s[..2] == "tr" && s[..4] == "true";
  }

  lemma TrueishTokens()
    ensures Tokens("trueish") == Some(["true", "ish"])
  {
    hide TokenLen, SkipSpaces;
    var s := "trueish";
    TrueishStarts();
    PathTokenLexed(["ish"]);
    AloneIsOneToken("ish");
    assert s[..4] == "true" && s[4..] == "ish";
    assert ["true"] + ["ish"] == ["true", "ish"];
  }
}
