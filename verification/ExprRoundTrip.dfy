/** Text level: any spacing of the printed tokens, even none, is tokenized back to them, so printing and parsing
    round-trips. */
module ExprRoundTrip {
  import opened Wrappers
  import opened Lines
  import opened ExprTokens
  import opened ExprParser
  import opened ExprGrammar
  import opened ExprPrinter

  // ----- Spacing out tokens -----

  predicate AllSpaces(s: string) {
    forall i | 0 <= i < |s| :: IsSpace(s[i])
  }

  /** One gap before each token and one after the last, any of which may be empty. */
  predicate GapsFor(tokens: seq<string>, gaps: seq<string>) {
    |gaps| == |tokens| + 1 && forall g | g in gaps :: AllSpaces(g)
  }

  /** Followed by this character, the token ends where it does alone. */
  predicate EndsBefore(t: string, c: char)
    requires t != ""
  {
    && (IsIdentPart(t[|t| - 1]) ==> !IsIdentPart(c))
    && (t in ["<", ">", "!"] ==> c != '=')
    && c != '.'
  }

  /** Two tokens that cannot run together. */
  predicate Apart(t: string, u: string) {
    t != "" && u != "" && EndsBefore(t, u[0])
  }

  /** Wherever the gap is empty, the tokens on its sides cannot run together. */
  predicate Separated(tokens: seq<string>, gaps: seq<string>)
    requires |gaps| == |tokens| + 1
  {
    forall k | 0 < k < |tokens| :: gaps[k] != "" || Apart(tokens[k - 1], tokens[k])
  }

  function Spaced(tokens: seq<string>, gaps: seq<string>): string
    requires |gaps| == |tokens| + 1
  {
    if tokens == [] then gaps[0] else gaps[0] + (tokens[0] + Spaced(tokens[1..], gaps[1..]))
  }

  /** A text the tokenizer takes as one token when nothing follows it. */
  predicate Lexed(t: string) {
    t != "" && !IsSpace(t[0]) && TokenLen(t) == Some(|t|)
  }

  /** Nothing that continues a word or a number. */
  predicate Stops(rest: string) {
    rest == "" || (!IsIdentPart(rest[0]) && rest[0] != '.')
  }

  lemma {:induction false} RunExtends(s: string, rest: string, p: char -> bool)
    requires rest == "" || !p(rest[0]) || Run(s, p) < |s|
    ensures Run(s + rest, p) == Run(s, p)
  {
    if s == "" {
      assert s + rest == rest;
    } else {
      assert (s + rest)[1..] == s[1..] + rest;
      if p(s[0]) {
        RunExtends(s[1..], rest, p);
      }
    }
  }

  lemma {:induction false} RunOver(s: string, rest: string, p: char -> bool)
    requires (forall i | 0 <= i < |s| :: p(s[i])) && (rest == "" || !p(rest[0]))
    ensures Run(s + rest, p) == |s|
  {
    if s == "" {
      assert s + rest == rest;
    } else {
      assert (s + rest)[1..] == s[1..] + rest;
      RunOver(s[1..], rest, p);
    }
  }

  lemma DropConcat(s: string, rest: string, n: nat)
    requires n <= |s|
    ensures (s + rest)[n..] == s[n..] + rest
  {
  }

  /** The fraction after a whole part that ends at `p`. */
  lemma FractionStops(s: string, rest: string, p: nat)
    requires p < |s| && Stops(rest)
    ensures (s + rest)[p] == s[p] && Run((s + rest)[p + 1..], IsDigit) == Run(s[p + 1..], IsDigit)
  {
    hide Run;
    DropConcat(s, rest, p + 1);
    RunExtends(s[p + 1..], rest, IsDigit);
  }

  lemma NumberStops(s: string, rest: string)
    requires s != "" && Stops(rest)
    ensures NumberLen(s + rest) == NumberLen(s)
  {
    hide Run, NumberLen;
    var sign := if s[0] == '-' then 1 else 0;
    DropConcat(s, rest, sign);
    RunExtends(s[sign..], rest, IsDigit);
    var whole := Run(s[sign..], IsDigit);
    var p := sign + whole;
    var fraction := if p < |s| && s[p] == '.' then Run(s[p + 1..], IsDigit) else 0;
    if p < |s| {
      FractionStops(s, rest, p);
    } else {
      assert rest != "" ==> (s + rest)[p] == rest[0];
    }
    NumberParts(s, sign, whole, fraction);
    NumberParts(s + rest, sign, whole, fraction);
  }

  lemma NumberParts(s: string, sign: nat, whole: nat, fraction: nat)
    requires s != "" && sign == (if s[0] == '-' then 1 else 0) && whole == Run(s[sign..], IsDigit)
    requires fraction ==
             if sign + whole < |s| && s[sign + whole] == '.' then Run(s[sign + whole + 1..], IsDigit) else 0
    ensures NumberLen(s) ==
            if whole == 0 then None
            else Some(if fraction == 0 then sign + whole else sign + whole + 1 + fraction)
  {
    hide Run;
  }

  lemma NumberEnds(t: string)
    requires t != "" && NumberLen(t) == Some(|t|)
    ensures IsIdentPart(t[|t| - 1])
  {
    var sign := if t[0] == '-' then 1 else 0;
    var p := sign + Run(t[sign..], IsDigit);
    if p == |t| {
      assert t[|t| - 1] == t[sign..][|t| - 1 - sign];
    } else {
      assert t[|t| - 1] == t[p + 1..][|t| - 2 - p];
    }
  }

  lemma {:induction false} PathEnds(t: string)
    requires t != "" && IsIdentStart(t[0]) && PathLen(t) == |t|
    ensures IsIdentPart(t[|t| - 1])
    decreases |t|
  {
    var k := Run(t, IsIdentPart);
    if k < |t| {
      PathEnds(t[k + 1..]);
      assert t[|t| - 1] == t[k + 1..][|t| - 2 - k];
    }
  }

  lemma {:induction false} PathStops(s: string, rest: string)
    requires s != "" && IsIdentStart(s[0]) && Stops(rest)
    ensures PathLen(s + rest) == PathLen(s)
    decreases |s|
  {
    hide Run;
    RunExtends(s, rest, IsIdentPart);
    var k := Run(s, IsIdentPart);
    if k + 1 < |s| && s[k] == '.' && IsIdentStart(s[k + 1]) {
      DropConcat(s, rest, k + 1);
      PathStops(s[k + 1..], rest);
    }
  }

  lemma QuotedStops(s: string, rest: string)
    requires s != "" && QuotedLen(s).Some?
    ensures QuotedLen(s + rest) == QuotedLen(s)
  {
    var p := c => c != s[0];
    var p' := c => c != (s + rest)[0];
    assert (s + rest)[1..] == s[1..] + rest;
    SameRun(s[1..], p, c => c != s[0]);
    SameRun((s + rest)[1..], p', p);
    RunExtends(s[1..], rest, p);
    SameRun((s + rest)[1..], c => c != (s + rest)[0], p');
  }

  lemma {:induction false} SameRun(s: string, p: char -> bool, q: char -> bool)
    requires forall c :: p(c) == q(c)
    ensures Run(s, p) == Run(s, q)
  {
    if s != "" && p(s[0]) {
      SameRun(s[1..], p, q);
    }
  }

  /** A word or a number keeps its length when nothing that continues it follows. */
  lemma WordStops(t: string, rest: string)
    requires Lexed(t) && (rest == "" || EndsBefore(t, rest[0]))
    requires IsIdentStart(t[0]) || IsDigit(t[0]) || t[0] == '-'
    ensures TokenLen(t + rest) == Some(|t|)
  {
    hide NumberLen, PathLen, QuotedLen;
    var s := t + rest;
    assert s[0] == t[0];
    assert |s| >= 2 ==> s[..2][0] == t[0];
    assert |t| >= 2 ==> t[..2][0] == t[0];
    if IsIdentStart(t[0]) {
      NotNumeric(t);
      NotNumeric(s);
      if !("true" <= t) && !("false" <= t) {
        PathEnds(t);
        PathStops(t, rest);
        PrefixStops("true", t, rest);
        PrefixStops("false", t, rest);
      } else if "true" <= t {
        assert s[..4] == t[..4];
      } else {
        assert s[..5] == t[..5];
        assert s[0] == 'f';
      }
    } else {
      NumberEnds(t);
      NumberStops(t, rest);
    }
  }

  /** A token keeps its length when what follows does not run together with it. */
  lemma TokenStops(t: string, rest: string)
    requires Lexed(t) && (rest == "" || EndsBefore(t, rest[0]))
    ensures TokenLen(t + rest) == Some(|t|)
  {
    hide NumberLen, PathLen, QuotedLen;
    var s := t + rest;
    assert s[0] == t[0];
    if IsIdentStart(t[0]) || IsDigit(t[0]) || t[0] == '-' {
      WordStops(t, rest);
    } else if t[0] == '"' || t[0] == '\'' {
      assert |s| >= 2 ==> s[..2][0] == t[0];
      assert |t| >= 2 ==> t[..2][0] == t[0];
      QuotedStops(t, rest);
    } else {
      NotWord(t);
      if |t| >= 2 {
        assert s[..2] == t[..2];
      } else {
        assert t == [t[0]];
        assert |s| >= 2 ==> s[..2] == [t[0], rest[0]];
      }
    }
  }

  /** A token that starts no word, number or string is an operator or a parenthesis. */
  lemma NotWord(t: string)
    requires Lexed(t) && !IsIdentStart(t[0]) && !IsDigit(t[0]) && t[0] != '-' && t[0] != '"' && t[0] != '\''
    ensures t in TWO_CHARACTER_OPERATORS || (|t| == 1 && t[0] in "<>!()")
  {
    assert t[0..] == t;
    assert NumberLen(t) == None;
    if |t| >= 2 && t[..2] in TWO_CHARACTER_OPERATORS {
      assert t[..2] == t;
    }
  }

  lemma PrefixStops(word: string, t: string, rest: string)
    requires Stops(rest) && forall i | 0 <= i < |word| :: IsIdentPart(word[i])
    ensures word <= t + rest <==> word <= t
  {
    var s := t + rest;
    if |t| < |word| <= |s| {
      assert s[|t|] == rest[0] && word[|t|] != s[|t|];
    } else if |word| <= |t| {
      assert s[..|word|] == t[..|word|];
    }
  }

  lemma {:induction false} TokensOfSpaced(tokens: seq<string>, gaps: seq<string>)
    requires GapsFor(tokens, gaps) && Separated(tokens, gaps) && forall t | t in tokens :: Lexed(t)
    ensures Tokens(Spaced(tokens, gaps)) == Some(tokens)
    decreases |tokens|
  {
    hide TokenLen, Run;
    var s := Spaced(tokens, gaps);
    assert gaps[0] in gaps;
    if tokens == [] {
      RunOver(s, "", IsSpace);
      assert s + "" == s;
    } else {
      var t, rest := tokens[0], Spaced(tokens[1..], gaps[1..]);
      assert t in tokens;
      RunOver(gaps[0], t + rest, IsSpace);
      assert SkipSpaces(s) == t + rest;
      assert rest == "" || EndsBefore(t, rest[0]) by {
        RestStarts(tokens, gaps);
      }
      TokenStops(t, rest);
      assert (t + rest)[..|t|] == t && (t + rest)[|t|..] == rest;
      assert forall g | g in gaps[1..] :: g in gaps;
      assert Separated(tokens[1..], gaps[1..]) by {
        SeparatedTail(tokens, gaps);
      }
      TokensOfSpaced(tokens[1..], gaps[1..]);
      assert tokens == [t] + tokens[1..];
    }
  }

  lemma RestStarts(tokens: seq<string>, gaps: seq<string>)
    requires tokens != [] && GapsFor(tokens, gaps) && Separated(tokens, gaps) && tokens[0] != ""
    requires forall t | t in tokens :: t != ""
    ensures var rest := Spaced(tokens[1..], gaps[1..]); rest == "" || EndsBefore(tokens[0], rest[0])
  {
    assert gaps[1] in gaps;
    var rest := Spaced(tokens[1..], gaps[1..]);
    if gaps[1] != "" {
      assert rest[0] == gaps[1][0] && IsSpace(rest[0]);
    } else if |tokens| > 1 {
      assert tokens[1] in tokens;
      assert rest[0] == tokens[1][0] && Apart(tokens[0], tokens[1]);
    }
  }

  lemma SeparatedTail(tokens: seq<string>, gaps: seq<string>)
    requires tokens != [] && |gaps| == |tokens| + 1 && Separated(tokens, gaps)
    ensures Separated(tokens[1..], gaps[1..])
  {
    forall k | 0 < k < |tokens[1..]|
      ensures gaps[1..][k] != "" || Apart(tokens[1..][k - 1], tokens[1..][k])
    {
      assert gaps[k + 1] != "" || Apart(tokens[k], tokens[k + 1]);
    }
  }

  /** Nothing in a text is lost by tokenizing it: the text is its tokens, each a token when alone, with only spaces
      between them. */
  lemma {:induction false} TokensKeepText(source: string) returns (gaps: seq<string>)
    requires Tokens(source).Some?
    ensures GapsFor(Tokens(source).value, gaps) && source == Spaced(Tokens(source).value, gaps)
    decreases |source|
  {
    hide TokenLen, Run, Tokens, Spaced;
    var k := Run(source, IsSpace);
    var t := SkipSpaces(source);
    assert AllSpaces(source[..k]) && source == source[..k] + t;
    FirstToken(source);
    if t == "" {
      gaps := [source];
      SpacedNothing(source);
    } else {
      var n := TokenLen(t).value;
      var more := TokensKeepText(t[n..]);
      gaps := [source[..k]] + more;
      SpacedMore(t[..n], Tokens(t[n..]).value, source[..k], more);
      assert t == t[..n] + t[n..];
    }
  }

  lemma FirstToken(source: string)
    requires Tokens(source).Some?
    ensures var t := SkipSpaces(source);
      if t == "" then Tokens(source) == Some([])
      else
        && TokenLen(t).Some? && Tokens(t[TokenLen(t).value..]).Some?
        && Tokens(source).value == [t[..TokenLen(t).value]] + Tokens(t[TokenLen(t).value..]).value
  {
  }

  lemma SpacedNothing(gap: string)
    ensures Spaced([], [gap]) == gap
  {
  }

  lemma SpacedMore(t: string, tokens: seq<string>, gap: string, gaps: seq<string>)
    requires |gaps| == |tokens| + 1
    ensures Spaced([t] + tokens, [gap] + gaps) == gap + (t + Spaced(tokens, gaps))
  {
    assert ([t] + tokens)[1..] == tokens && ([gap] + gaps)[1..] == gaps;
  }

  // ----- Numerals -----

  predicate AllDigits(s: string) {
    s != "" && forall i | 0 <= i < |s| :: '0' <= s[i] <= '9'
  }

  /** Digits, or digits, a point and digits. */
  ghost predicate Decimal(body: string) {
    || AllDigits(body)
    || exists p :: 0 < p < |body| && body[p] == '.' && AllDigits(body[..p]) && AllDigits(body[p + 1..])
  }

  /** A numeral is a decimal number with or without a minus sign. */
  lemma NumeralExactly(t: string)
    ensures IsNumeral(t) <==> Decimal(if t != "" && t[0] == '-' then t[1..] else t)
  {
    hide IsNumeral, Decimal, Scanned;
    NumeralBody(t);
    var body := if t != "" && t[0] == '-' then t[1..] else t;
    if Scanned(body) {
      ScannedIsDecimal(body);
    }
    if Decimal(body) {
      DecimalIsScanned(body);
    }
  }

  /** The scanner goes through all of it. */
  predicate Scanned(body: string) {
    var whole := Run(body, IsDigit);
    && whole > 0
    && (whole == |body| ||
        (body[whole] == '.' && whole + 1 < |body| && Run(body[whole + 1..], IsDigit) == |body| - whole - 1))
  }

  lemma NumeralBody(t: string)
    ensures IsNumeral(t) <==> Scanned(if t != "" && t[0] == '-' then t[1..] else t)
  {
    hide Run;
    var sign := if t != "" && t[0] == '-' then 1 else 0;
    var body := if t != "" && t[0] == '-' then t[1..] else t;
    assert t[sign..] == body;
    var p := sign + Run(body, IsDigit);
    if p < |t| {
      assert t[p + 1..] == body[p + 1 - sign..] && t[p] == body[p - sign];
    }
  }

  lemma {:induction false} RunAll(s: string)
    ensures Run(s, IsDigit) == |s| <==> s == "" || AllDigits(s)
  {
    if s == "" || AllDigits(s) {
      RunOver(s, "", IsDigit);
      assert s + "" == s;
    }
  }

  lemma ScannedIsDecimal(body: string)
    requires Scanned(body)
    ensures Decimal(body)
  {
    RunAll(body);
    var whole := Run(body, IsDigit);
    hide Run;
    if whole < |body| {
      RunAll(body[whole + 1..]);
      assert AllDigits(body[..whole]);
    }
  }

  lemma DecimalIsScanned(body: string)
    requires Decimal(body)
    ensures Scanned(body)
  {
    hide Run;
    if AllDigits(body) {
      RunAll(body);
    } else {
      var p :| 0 < p < |body| && body[p] == '.' && AllDigits(body[..p]) && AllDigits(body[p + 1..]);
      hide Scanned;
      PointIsScanned(body, p);
    }
  }

  lemma PointIsScanned(body: string, p: nat)
    requires 0 < p < |body| && body[p] == '.' && AllDigits(body[..p]) && AllDigits(body[p + 1..])
    ensures Scanned(body)
  {
    RunAll(body[p + 1..]);
    assert body[..p] + body[p..] == body && !IsDigit(body[p..][0]);
    RunOver(body[..p], body[p..], IsDigit);
    hide Run;
  }

  // ----- Printed tokens never run together -----

  predicate AllApart(ts: seq<string>) {
    forall k | 0 < k < |ts| :: Apart(ts[k - 1], ts[k])
  }

  /** The tokens of a printed operand: its first cannot extend an operator before it, nor its last be extended by one
      after it. */
  predicate Compact(ts: seq<string>) {
    && AllApart(ts) && ts != []
    && ts[0] != "" && ts[0][0] != '=' && ts[0][0] != '.'
    && ts[|ts| - 1] != "" && ts[|ts| - 1] !in ["<", ">", "!"]
  }

  /** A token that comes before an operand, and one that comes after it. */
  predicate Leads(t: string) {
    t != "" && !IsIdentPart(t[|t| - 1])
  }

  predicate Trails(t: string) {
    t != "" && !IsIdentPart(t[0]) && t[0] != '.'
  }

  lemma LedCompact(t: string, ts: seq<string>)
    requires Leads(t) && t[0] != '=' && t[0] != '.' && Compact(ts)
    ensures Compact([t] + ts)
  {
    var all := [t] + ts;
    forall k | 0 < k < |all|
      ensures Apart(all[k - 1], all[k])
    {
      assert k > 1 ==> all[k - 1] == ts[k - 2] && all[k] == ts[k - 1];
    }
  }

  lemma TrailedCompact(ts: seq<string>, t: string)
    requires Compact(ts) && Trails(t) && t !in ["<", ">", "!"]
    ensures Compact(ts + [t])
  {
  }

  lemma JoinedCompact(l: seq<string>, op: string, r: seq<string>)
    requires Compact(l) && Compact(r) && Leads(op) && Trails(op)
    ensures Compact(l + [op] + r)
  {
    var all := l + [op] + r;
    forall k | 0 < k < |all|
      ensures Apart(all[k - 1], all[k])
    {
      if k < |l| {
        assert all[k - 1] == l[k - 1] && all[k] == l[k];
      } else if k == |l| {
        assert all[k - 1] == l[|l| - 1] && all[k] == op;
      } else if k == |l| + 1 {
        assert all[k - 1] == op && all[k] == r[0];
      } else {
        assert all[k - 1] == r[k - |l| - 2] && all[k] == r[k - |l| - 1];
      }
    }
  }

  lemma OperatorsLeadAndTrail()
    ensures forall t | t in COMPARE_OPS + ["&&", "||"] :: Leads(t) && Trails(t)
    ensures Leads("!") && Leads("(") && Trails(")")
  {
  }

  lemma LeafCompact(e: Expr)
    requires WellFormed(e) && Level(e) == 4
    ensures Compact(Body(e))
  {
    match e
    case Path(segments) =>
      PathToken(segments);
    case Lit(Str(text)) =>
      assert LiteralToken(e.literal)[0] in "\"'";
    case Lit(Num(numeral)) =>
      NumeralStart(numeral);
    case Lit(Bool(_)) =>
  }

  lemma {:induction false} BodyCompact(e: Expr)
    requires WellFormed(e)
    ensures Compact(Body(e))
    decreases e, 0
  {
    hide Compact, Leads, Trails, Print, Join, LiteralToken;
    OperatorsLeadAndTrail();
    match e
    case Path(_) => LeafCompact(e);
    case Lit(_) => LeafCompact(e);
    case Compare(op, l, r) =>
      PrintedCompact(l, 4);
      PrintedCompact(r, 4);
      JoinedCompact(Print(l, 4), op, Print(r, 4));
    case Not(x) =>
      PrintedCompact(x, 2);
      LedCompact("!", Print(x, 2));
    case And(l, r) =>
      PrintedCompact(l, 1);
      PrintedCompact(r, 2);
      JoinedCompact(Print(l, 1), "&&", Print(r, 2));
    case Or(l, r) =>
      PrintedCompact(l, 0);
      PrintedCompact(r, 1);
      JoinedCompact(Print(l, 0), "||", Print(r, 1));
  }

  lemma {:induction false} PrintedCompact(e: Expr, level: nat)
    requires WellFormed(e)
    ensures Compact(Print(e, level))
    decreases e, 1
  {
    hide Compact, Leads, Trails, Body;
    OperatorsLeadAndTrail();
    BodyCompact(e);
    if Level(e) < level {
      LedCompact("(", Body(e));
      TrailedCompact(["("] + Body(e), ")");
    }
  }

  // ----- Every printed token is one token -----

  lemma {:induction false} IdentRun(segments: seq<string>)
    requires segments != [] && forall s | s in segments :: IsIdent(s)
    ensures var all := Join(segments, '.');
      all != "" && IsIdentStart(all[0]) && PathLen(all) == |all|
    decreases |segments|
  {
    var first := segments[0];
    assert first in segments;
    if |segments| == 1 {
      RunOver(first, "", IsIdentPart);
      assert first + "" == first;
    } else {
      var tail := Join(segments[1..], '.');
      IdentRun(segments[1..]);
      var all := Join(segments, '.');
      assert all == first + (['.'] + tail);
      RunOver(first, ['.'] + tail, IsIdentPart);
      assert all[|first| + 1..] == tail;
    }
  }

  lemma QuotedToken(q: char, text: string)
    requires q !in text
    ensures QuotedLen([q] + text + [q]) == Some(|text| + 2)
  {
    var t := [q] + text + [q];
    assert t[1..] == text + [q];
    RunOver(text, [q], c => c != q);
    SameRun(t[1..], c => c != t[0], c => c != q);
  }

  lemma QuotedLexed(q: char, text: string)
    requires (q == '"' || q == '\'') && q !in text
    ensures Lexed([q] + text + [q])
  {
    hide QuotedLen;
    QuotedToken(q, text);
    var t := [q] + text + [q];
    assert t[0] == q && t[..2][0] == q;
  }

  lemma NumeralLexed(numeral: string)
    requires IsNumeral(numeral)
    ensures Lexed(numeral)
  {
    NumeralStart(numeral);
    hide NumberLen;
    assert |numeral| >= 2 ==> numeral[..2][0] == numeral[0];
  }

  lemma LiteralTokenLexed(l: Literal)
    requires IsLiteral(l)
    ensures Lexed(LiteralToken(l))
  {
    hide Lexed;
    match l
    case Str(text) =>
      QuotedLexed(if '"' !in text then '"' else '\'', text);
    case Num(numeral) =>
      NumeralLexed(numeral);
    case Bool(value) =>
      BooleansLexed();
  }

  lemma BooleansLexed()
    ensures Lexed("true") && Lexed("false")
  {
    assert NumberLen("true") == None && NumberLen("false") == None;
    assert "true"[..2] == "tr" && "false"[..2] == "fa";
  }

  lemma PathTokenLexed(segments: seq<string>)
    requires IsPath(segments)
    ensures Lexed(Join(segments, '.'))
  {
    hide Join, PathLen, NumberLen, Split;
    PathToken(segments);
    IdentRun(segments);
    var all := Join(segments, '.');
    NotNumeric(all);
    assert |all| >= 2 ==> all[..2][0] == all[0];
  }

  lemma OperatorsLexed()
    ensures forall t | t in COMPARE_OPS + ["(", ")", "!", "&&", "||"] :: Lexed(t)
  {
    assert forall t | t in COMPARE_OPS + ["(", ")", "!", "&&", "||"] :: |t| == 2 ==> t[..2] == t;
  }

  lemma {:induction false} PrintedLexed(e: Expr, level: nat)
    requires WellFormed(e)
    ensures forall t | t in Print(e, level) :: Lexed(t)
    decreases e, 1
  {
    hide Lexed;
    BodyLexed(e);
    OperatorsLexed();
  }

  lemma {:induction false} BodyLexed(e: Expr)
    requires WellFormed(e)
    ensures forall t | t in Body(e) :: Lexed(t)
    decreases e, 0
  {
    hide Lexed, Print;
    OperatorsLexed();
    match e
    case Path(segments) => PathTokenLexed(segments);
    case Lit(l) => LiteralTokenLexed(l);
    case Compare(op, l, r) => PrintedLexed(l, 4); PrintedLexed(r, 4);
    case Not(x) => PrintedLexed(x, 2);
    case And(l, r) => PrintedLexed(l, 1); PrintedLexed(r, 2);
    case Or(l, r) => PrintedLexed(l, 0); PrintedLexed(r, 1);
  }

  lemma CompactSeparated(ts: seq<string>, gaps: seq<string>)
    requires Compact(ts) && GapsFor(ts, gaps)
    ensures Separated(ts, gaps)
  {
  }

  /** Printing a well-formed tree with only the parentheses its precedence levels require, spacing the tokens in
      any way, or not at all, then tokenizing and parsing, returns the same tree. */
  lemma RoundTrip(e: Expr, gaps: seq<string>)
    requires WellFormed(e) && GapsFor(Print(e, 0), gaps)
    ensures Parse(Spaced(Print(e, 0), gaps)) == Some(e)
  {
    hide Print, TokenLen, Spaced, GapsFor, OrAt, WellFormed;
    var ts := Print(e, 0);
    PrintedLexed(e, 0);
    PrintedCompact(e, 0);
    CompactSeparated(ts, gaps);
    TokensOfSpaced(ts, gaps);
    PrintedTokensParse(e);
  }
}
