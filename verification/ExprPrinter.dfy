/** Printing an expression tree with only the parentheses its precedence levels require, and the proof that
    tokenizing and parsing the printed text returns the same tree. */
module ExprPrinter {
  import opened Wrappers
  import opened Lines
  import opened ExprTokens
  import opened ExprParser
  import opened ExprGrammar

  // ----- Printing -----

  function LiteralToken(l: Literal): string {
    match l
    case Str(text) => if '"' !in text then "\"" + text + "\"" else "'" + text + "'"
    case Num(numeral) => numeral
    case Bool(value) => if value then "true" else "false"
  }

  /** The tokens of `e` where an expression of at least this level is expected. */
  function Print(e: Expr, level: nat): seq<string>
    decreases e, 1
  {
    if Level(e) < level then ["("] + Body(e) + [")"] else Body(e)
  }

  function Body(e: Expr): seq<string>
    decreases e, 0
  {
    match e
    case Path(segments) => [Join(segments, '.')]
    case Lit(l) => [LiteralToken(l)]
    case Compare(op, l, r) => Print(l, 4) + [op] + Print(r, 4)
    case Not(x) => ["!"] + Print(x, 2)
    case And(l, r) => Print(l, 1) + ["&&"] + Print(r, 2)
    case Or(l, r) => Print(l, 0) + ["||"] + Print(r, 1)
  }

  // ----- Parsing printed tokens -----

  /** `part` occurs in `ts` at position `i`. */
  ghost predicate Occurs(ts: seq<string>, i: nat, part: seq<string>) {
    i + |part| <= |ts| && ts[i..i + |part|] == part
  }

  lemma OccursSplit(ts: seq<string>, i: nat, a: seq<string>, b: seq<string>)
    requires Occurs(ts, i, a + b)
    ensures Occurs(ts, i, a) && Occurs(ts, i + |a|, b)
  {
    assert ts[i..i + |a|] == (a + b)[..|a|];
    assert ts[i + |a|..i + |a| + |b|] == (a + b)[|a|..];
  }

  lemma PathToken(segments: seq<string>)
    requires IsPath(segments)
    ensures Join(segments, '.') != "" && IsIdentStart(Join(segments, '.')[0])
    ensures !("true" <= Join(segments, '.')) && !("false" <= Join(segments, '.'))
    ensures Split(Join(segments, '.'), '.') == segments
  {
    var first, all := segments[0], Join(segments, '.');
    assert first in segments;
    assert first <= all;
    assert |segments| > 1 ==> all[|first|] == '.';
    forall s | s in segments ensures '.' !in s {
    }
    SplitOfJoin(segments, '.');
  }

  /** A leaf's token is read back as that leaf. */
  lemma LeafReadsBack(e: Expr)
    requires WellFormed(e) && Level(e) == 4
    ensures |Body(e)| == 1 && Body(e)[0] != "" && Leaf(Body(e)[0]) == e
    ensures Body(e)[0] !in ["(", ")", "!"]
  {
    match e
    case Path(segments) =>
      PathLeafReadsBack(segments);
    case Lit(Str(text)) =>
      var token := LiteralToken(e.literal);
      assert token[1..|token| - 1] == text;
    case Lit(Num(numeral)) =>
      NumeralStart(numeral);
    case Lit(Bool(_)) =>
  }

  lemma PathLeafReadsBack(segments: seq<string>)
    requires IsPath(segments)
    ensures var token := Join(segments, '.');
      token != "" && Leaf(token) == Path(segments) && token !in ["(", ")", "!"]
  {
    hide Join, Split, NumberLen;
    PathToken(segments);
    NotNumeric(Join(segments, '.'));
  }

  lemma NotNumeric(token: string)
    requires token != "" && IsIdentStart(token[0])
    ensures NumberLen(token) == None
  {
  }

  lemma NumeralStart(numeral: string)
    requires IsNumeral(numeral)
    ensures numeral != "" && (numeral[0] == '-' || IsDigit(numeral[0]))
  {
  }

  /** Printed tokens are one way to write their tree. */
  lemma {:induction false} PrintSpells(ts: seq<string>, i: nat, e: Expr, level: nat)
    requires WellFormed(e) && level <= 4 && Occurs(ts, i, Print(e, level))
    ensures Spells(ts, i, i + |Print(e, level)|, e, level)
    decreases e, 1
  {
    hide Body, WellFormed, Occurs;
    if Level(e) < level {
      assert ["("] + (Body(e) + [")"]) == Print(e, level);
      OccursSplit(ts, i, ["("], Body(e) + [")"]);
      OccursSplit(ts, i + 1, Body(e), [")"]);
      OccursHere(ts, i, ["("]);
      OccursHere(ts, i + 1 + |Body(e)|, [")"]);
      BodySpells(ts, i + 1, e);
      SpelledWithin(ts, i + 1, i + 1 + |Body(e)|, e, Level(e));
      SpelledLower(ts, i + 1, i + 1 + |Body(e)|, e, Level(e), 0);
    } else {
      BodySpells(ts, i, e);
      SpelledLower(ts, i, i + |Body(e)|, e, Level(e), level);
    }
  }

  lemma {:induction false} BodySpells(ts: seq<string>, i: nat, e: Expr)
    requires WellFormed(e) && Occurs(ts, i, Body(e))
    ensures Spells(ts, i, i + |Body(e)|, e, Level(e))
    decreases e, 0
  {
    hide Print, Occurs, Join, LiteralToken, Spells, Joined;
    var j := i + |Body(e)|;
    match e
    case Path(_) => LeafSpells(ts, i, e);
    case Lit(_) => LeafSpells(ts, i, e);
    case Not(x) =>
      OccursSplit(ts, i, ["!"], Print(x, 2));
      OccursHere(ts, i, ["!"]);
      PrintSpells(ts, i + 1, x, 2);
      SpelledWithin(ts, i + 1, j, x, 2);
      BareSpells(ts, i, j, e);
    case Compare(op, l, r) =>
      BinarySpells(ts, i, e, Print(l, 4), op, Print(r, 4));
      PrintSpells(ts, i, l, 4);
      PrintSpells(ts, i + |Print(l, 4)| + 1, r, 4);
      JoinedSpells(ts, i, i + |Print(l, 4)|, j, l, 4, op, r, 4);
      BareSpells(ts, i, j, e);
    case And(l, r) =>
      BinarySpells(ts, i, e, Print(l, 1), "&&", Print(r, 2));
      PrintSpells(ts, i, l, 1);
      PrintSpells(ts, i + |Print(l, 1)| + 1, r, 2);
      JoinedSpells(ts, i, i + |Print(l, 1)|, j, l, 1, "&&", r, 2);
      BareSpells(ts, i, j, e);
    case Or(l, r) =>
      BinarySpells(ts, i, e, Print(l, 0), "||", Print(r, 1));
      PrintSpells(ts, i, l, 0);
      PrintSpells(ts, i + |Print(l, 0)| + 1, r, 1);
      JoinedSpells(ts, i, i + |Print(l, 0)|, j, l, 0, "||", r, 1);
      BareSpells(ts, i, j, e);
  }

  lemma LeafSpells(ts: seq<string>, i: nat, e: Expr)
    requires WellFormed(e) && Level(e) == 4 && Occurs(ts, i, Body(e))
    ensures Spells(ts, i, i + |Body(e)|, e, 4)
  {
    LeafReadsBack(e);
    OccursHere(ts, i, Body(e));
  }

  lemma BinarySpells(ts: seq<string>, i: nat, e: Expr, l: seq<string>, op: string, r: seq<string>)
    requires Body(e) == l + [op] + r && Occurs(ts, i, Body(e))
    ensures Occurs(ts, i, l) && Occurs(ts, i + |l| + 1, r)
    ensures i + |Body(e)| == i + |l| + 1 + |r| <= |ts| && ts[i + |l|] == op
  {
    BinaryReads(ts, i, l, op, r);
  }

  /** Wherever the printed tokens occur and the next token cannot extend them, the parser of that level reads exactly
      that tree and stops after it. */
  lemma PrintReads(ts: seq<string>, i: nat, e: Expr, level: nat)
    requires Solid(ts) && WellFormed(e) && level <= 4
    requires Occurs(ts, i, Print(e, level)) && Ends(ts, i + |Print(e, level)|, level)
    ensures Print(e, level) != []
    ensures i + |Print(e, level)| <= |ts| && Reads(ts, i, i + |Print(e, level)|, e, level)
  {
    hide Spells;
    PrintSpells(ts, i, e, level);
    SpelledWithin(ts, i, i + |Print(e, level)|, e, level);
    SpelledReads(ts, i, i + |Print(e, level)|, e, level);
  }

  lemma OccursHere(ts: seq<string>, i: nat, part: seq<string>)
    requires Occurs(ts, i, part)
    ensures i + |part| <= |ts| && (part != [] ==> ts[i] == part[0])
  {
    if part != [] {
      assert ts[i] == ts[i..i + |part|][0];
    }
  }

  lemma BinaryReads(ts: seq<string>, i: nat, l: seq<string>, op: string, r: seq<string>)
    requires Occurs(ts, i, l + [op] + r)
    ensures Occurs(ts, i, l) && Occurs(ts, i + |l| + 1, r)
    ensures i + |l| + 1 + |r| <= |ts| && ts[i + |l|] == op
  {
    OccursSplit(ts, i, l + [op], r);
    OccursSplit(ts, i, l, [op]);
  }

  /** The printed tokens parse to the same tree and are all used up. */
  lemma PrintedTokensParse(e: Expr)
    requires WellFormed(e) && Solid(Print(e, 0))
    ensures Print(e, 0) != []
    ensures OrAt(Print(e, 0), 0) == Done(e, |Print(e, 0)|)
  {
    var ts := Print(e, 0);
    assert ts[0..0 + |ts|] == ts;
    PrintReads(ts, 0, e, 0);
  }
}
