/** The tokenizer of the rule-condition language: the token regular expression with its alternation order, and
    the `exec` loop over it. */
module ExprTokens {
  import opened Wrappers

  predicate IsSpace(c: char) {
    c in {'\t', '\n', '\U{000B}', '\U{000C}', '\r', ' ', '\U{00A0}', '\U{1680}', '\U{2028}', '\U{2029}',
          '\U{202F}', '\U{205F}', '\U{3000}', '\U{FEFF}'} || '\U{2000}' <= c <= '\U{200A}'
  }

  predicate IsDigit(c: char) {
    '0' <= c <= '9'
  }

  predicate IsIdentStart(c: char) {
    'A' <= c <= 'Z' || 'a' <= c <= 'z' || c == '_'
  }

  predicate IsIdentPart(c: char) {
    IsIdentStart(c) || IsDigit(c)
  }

  /** White space and line terminators as sections 12.2 and 12.3 of ECMA-262 list them, ASCII digits, and what a name
      may start and go on with, all by code point. */
  lemma CharactersExactly(c: char)
    ensures IsSpace(c) <==>
      c as int in {0x9, 0xA, 0xB, 0xC, 0xD, 0x20, 0xA0, 0x1680, 0x2000, 0x2001, 0x2002, 0x2003, 0x2004, 0x2005, 0x2006,
                   0x2007, 0x2008, 0x2009, 0x200A, 0x2028, 0x2029, 0x202F, 0x205F, 0x3000, 0xFEFF}
    ensures IsDigit(c) <==> 48 <= c as int <= 57
    ensures IsIdentStart(c) <==> 65 <= c as int <= 90 || 97 <= c as int <= 122 || c as int == 95
    ensures IsIdentPart(c) <==> IsIdentStart(c) || IsDigit(c)
  {
  }

  /** How many characters at the start of `s` satisfy `p`. */
  function Run(s: string, p: char -> bool): (n: nat)
    ensures n <= |s|
    ensures forall i | 0 <= i < n :: p(s[i])
    ensures n < |s| ==> !p(s[n])
  {
    if s != "" && p(s[0]) then 1 + Run(s[1..], p) else 0
  }

  // ----- The alternatives, each giving the length it matches at the start of the text -----

  const TWO_CHARACTER_OPERATORS := ["==", "!=", "<=", ">=", "&&", "||"]

  /** `"[^"]*"` and its single-quoted twin. */
  function QuotedLen(s: string): (r: Option<nat>)
    requires s != ""
    ensures r.Some? ==> 2 <= r.value <= |s|
  {
    var body := Run(s[1..], c => c != s[0]);
    if body + 1 < |s| then Some(body + 2) else None
  }

  /** `-?\d+(?:\.\d+)?` */
  function NumberLen(s: string): (r: Option<nat>)
    ensures r.Some? ==> 1 <= r.value <= |s|
  {
    var sign := if s != "" && s[0] == '-' then 1 else 0;
    var whole := Run(s[sign..], IsDigit);
    if whole == 0 then None
    else
      var p := sign + whole;
      var fraction := if p < |s| && s[p] == '.' then Run(s[p + 1..], IsDigit) else 0;
      Some(if fraction == 0 then p else p + 1 + fraction)
  }

  /** `[A-Za-z_][A-Za-z0-9_]*(?:\.[A-Za-z_][A-Za-z0-9_]*)*` */
  function PathLen(s: string): (n: nat)
    requires s != "" && IsIdentStart(s[0])
    ensures 1 <= n <= |s|
  {
    var k := Run(s, IsIdentPart);
    if k + 1 < |s| && s[k] == '.' && IsIdentStart(s[k + 1]) then k + 1 + PathLen(s[k + 1..]) else k
  }

  /** The token matched at the start of `s`, the first alternative that matches winning: in particular
      `true` and `false` are tried before identifiers. */
  function TokenLen(s: string): (r: Option<nat>)
    ensures r.Some? ==> 1 <= r.value <= |s|
  {
    if |s| >= 2 && s[..2] in TWO_CHARACTER_OPERATORS then Some(2)
    else if s == "" then None
    else if s[0] in "<>!()" then Some(1)
    else if s[0] == '"' || s[0] == '\'' then QuotedLen(s)
    else if NumberLen(s).Some? then NumberLen(s)
    else if "true" <= s then Some(4)
    else if "false" <= s then Some(5)
    else if IsIdentStart(s[0]) then Some(PathLen(s))
    else None
  }

  // ----- What tokenizing means -----

  function SkipSpaces(s: string): string {
    s[Run(s, IsSpace)..]
  }

  function Tokens(s: string): Option<seq<string>>
    decreases |s|
  {
    var t := SkipSpaces(s);
    if t == "" then Some([])
    else
      match TokenLen(t)
      case None => None
      case Some(k) =>
        match Tokens(t[k..])
        case None => None
        case Some(rest) => Some([t[..k]] + rest)
  }

  // ----- The loop over RegExp.prototype.exec -----

  datatype Match = Match(index: nat, token: string, end: nat)

  /** `\s*(...)` at exactly this index. No token starts with a space, so the greedy `\s*` never gives one back. */
  function MatchAt(source: string, index: nat): (r: Option<Match>)
    requires index <= |source|
    ensures r.Some? ==> r.value.index == index && index < r.value.end <= |source|
  {
    var start := index + Run(source[index..], IsSpace);
    match TokenLen(source[start..])
    case None => None
    case Some(k) => Some(Match(index, source[start..start + k], start + k))
  }

  /** A global regular expression's `exec`: the first index from `lastIndex` on at which it matches. */
  function Exec(source: string, lastIndex: nat): (r: Option<Match>)
    requires lastIndex <= |source|
    ensures r.Some? ==> lastIndex <= r.value.index < r.value.end <= |source|
    decreases |source| - lastIndex
  {
    if MatchAt(source, lastIndex).Some? then MatchAt(source, lastIndex)
    else if lastIndex < |source| then Exec(source, lastIndex + 1)
    else None
  }

  lemma MatchIsToken(source: string, index: nat)
    requires index <= |source|
    ensures var t := SkipSpaces(source[index..]);
      match MatchAt(source, index)
      case None => TokenLen(t) == None
      case Some(m) => t != "" && TokenLen(t) == Some(|m.token|) && t[..|m.token|] == m.token
                      && t[|m.token|..] == source[m.end..]
  {
    hide TokenLen, Run;
    var start := index + Run(source[index..], IsSpace);
    var t := source[start..];
    assert SkipSpaces(source[index..]) == t;
    if TokenLen(t).Some? {
      var k := TokenLen(t).value;
      assert t[..k] == source[start..start + k] && t[k..] == source[start + k..];
    }
  }

  /** Nothing matches anywhere in a remainder that is all spaces. */
  lemma {:induction false} NoMatchInSpaces(source: string, index: nat)
    requires index <= |source| && SkipSpaces(source[index..]) == ""
    ensures Exec(source, index) == None
    decreases |source| - index
  {
    assert forall i | index <= i < |source| :: source[i] == source[index..][i - index] && IsSpace(source[i]);
    if index < |source| {
      var rest := source[index + 1..];
      assert forall i | 0 <= i < |rest| :: rest[i] == source[index + 1 + i];
      NoMatchInSpaces(source, index + 1);
    }
  }

  lemma NotAllSpaces(source: string, index: nat)
    requires index <= |source| && Exec(source, index).Some?
    ensures SkipSpaces(source[index..]) != ""
  {
    if SkipSpaces(source[index..]) == "" {
      NoMatchInSpaces(source, index);
    }
  }

  /** What one `exec` tells about the tokens of the rest of the source. */
  lemma ExecStep(source: string, consumed: nat)
    requires consumed <= |source|
    ensures var rest := source[consumed..];
      match Exec(source, consumed)
      case None => Tokens(rest) == if SkipSpaces(rest) == "" then Some([]) else None
      case Some(m) =>
        if m.index != consumed then Tokens(rest) == None
        else Tokens(rest) == Prepend([m.token], Tokens(source[m.end..]))
  {
    hide TokenLen, MatchAt, SkipSpaces;
    MatchIsToken(source, consumed);
    var found := Exec(source, consumed);
    if found.Some? && found.value.index != consumed {
      NotAllSpaces(source, consumed);
    }
  }

  ghost function Prepend(done: seq<string>, rest: Option<seq<string>>): Option<seq<string>> {
    match rest
    case None => None
    case Some(tokens) => Some(done + tokens)
  }

  lemma PrependNothing(rest: Option<seq<string>>)
    ensures Prepend([], rest) == rest
  {
    if rest.Some? {
      assert [] + rest.value == rest.value;
    }
  }

  lemma PrependOne(done: seq<string>, token: string, rest: Option<seq<string>>)
    ensures Prepend(done, Prepend([token], rest)) == Prepend(done + [token], rest)
  {
    if rest.Some? {
      assert done + ([token] + rest.value) == done + [token] + rest.value;
    }
  }

  /** `tokenize`: None where the source throws. */
  method Tokenize(source: string) returns (r: Option<seq<string>>)
    ensures r == Tokens(source)
  {
    hide Exec, SkipSpaces, Tokens, Prepend;
    var tokens: seq<string> := [];
    var consumed := 0;
    assert source[0..] == source;
    PrependNothing(Tokens(source));
    var found := Exec(source, 0);
    while found.Some?
      invariant consumed <= |source| && found == Exec(source, consumed)
      invariant Tokens(source) == Prepend(tokens, Tokens(source[consumed..]))
      decreases |source| - consumed
    {
      ExecStep(source, consumed);
      if found.value.index != consumed {
        PrependKnown(tokens, []);
        return None;
      }
      PrependOne(tokens, found.value.token, Tokens(source[found.value.end..]));
      tokens := tokens + [found.value.token];
      consumed := found.value.end;
      found := Exec(source, consumed);
    }
    ExecStep(source, consumed);
    PrependKnown(tokens, []);
    if SkipSpaces(source[consumed..]) != "" {
      return None;
    }
    return Some(tokens);
  }

  lemma PrependKnown(done: seq<string>, rest: seq<string>)
    ensures Prepend(done, None) == None && Prepend(done, Some(rest)) == Some(done + rest)
    ensures done + [] == done
  {
  }
}
